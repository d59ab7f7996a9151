/**
  The library's admin service: building an `Admin` entity from the
  registration form, the two seeding routines, and the lookup by username.
  The admin and role repositories are modelled as maps keyed by username and
  by role name.
 */
module AdminService {

  import opened Web

  /** The admin registration form (`AdminDto`). A missing password or
      repetition is Java's `null`. */
  datatype AdminDto = AdminDto(firstName: string, lastName: string, username: string,
                               password: Option<string>, repeatPassword: Option<string>)

  datatype Role = Role(name: string)

  /** The `Admin` entity. A field never assigned stays `null` (`None`); the
      generated primary key is not modelled. */
  datatype Admin = Admin(firstName: Option<string>, lastName: Option<string>, username: Option<string>,
                         password: Option<string>, roles: Option<seq<Option<Role>>>)

  /** `AdminRepository`, keyed by username. */
  type AdminRepository = map<string, Admin>

  /** `RoleRepository`, keyed by role name. */
  type RoleRepository = map<string, Role>

  const AdminRoleName: string := "ADMIN"

  /** Every role is filed under its own name. */
  predicate RolesWellKeyed(roles: RoleRepository) {
    forall n :: n in roles ==> roles[n].name == n
  }

  /** `new Admin()`: every field `null`. */
  function NewAdmin(): Admin {
    Admin(None, None, None, None, None)
  }

  /** `roleRepository.findByName`: `None` is a `null` result. */
  function FindRoleByName(roles: RoleRepository, name: string): Option<Role> {
    if name in roles then Some(roles[name]) else None
  }

  /** `adminRepository.save`: files the entity under its username and returns it. */
  function Persist(repo: AdminRepository, admin: Admin): (r: (AdminRepository, Admin))
    requires admin.username.Some?
  {
    (repo[admin.username.value := admin], admin)
  }

  /** `findByUsername`: the repository's answer, `None` for `null`. */
  function FindByUsername(repo: AdminRepository, username: string): (r: Option<Admin>)
    ensures r.Some? <==> username in repo
    ensures r.Some? ==> r.value == repo[username]
  {
    if username in repo then Some(repo[username]) else None
  }

  /** `save(AdminDto)`: copy the form's names, username and password (as given,
      no encoding happens here), attach the single role found under "ADMIN",
      persist once and return the persisted entity. */
  function Save(repo: AdminRepository, roles: RoleRepository, dto: AdminDto): (r: (AdminRepository, Admin))
    ensures r.1.firstName == Some(dto.firstName) && r.1.lastName == Some(dto.lastName)
    ensures r.1.username == Some(dto.username) && r.1.password == dto.password
    ensures r.1.roles.Some? && |r.1.roles.value| == 1
    ensures r.1.roles.value[0] == FindRoleByName(roles, AdminRoleName)
    ensures r.0.Keys == repo.Keys + {dto.username}
    ensures r.0[dto.username] == r.1
    ensures forall u :: u in repo && u != dto.username ==> r.0[u] == repo[u]
  {
    var admin := NewAdmin();
    var admin := admin.(firstName := Some(dto.firstName));
    var admin := admin.(lastName := Some(dto.lastName));
    var admin := admin.(username := Some(dto.username));
    var admin := admin.(password := dto.password);
    var admin := admin.(roles := Some([FindRoleByName(roles, AdminRoleName)]));
    Persist(repo, admin)
  }

  /** When the role repository holds the "ADMIN" role, a saved admin carries
      exactly that role, and looking the admin up afterwards returns the entity
      `save` returned. */
  lemma SaveThenFind(repo: AdminRepository, roles: RoleRepository, dto: AdminDto)
    requires RolesWellKeyed(roles) && AdminRoleName in roles
    ensures var (after, admin) := Save(repo, roles, dto);
      && admin.roles == Some([Some(Role(AdminRoleName))])
      && FindByUsername(after, dto.username) == Some(admin)
  {
  }

  /** `initAdmin`: the username is set twice and the second value wins. */
  function InitAdmin(repo: AdminRepository): (r: AdminRepository)
    ensures r.Keys == repo.Keys + {"admin@abv.bg"}
    ensures r["admin@abv.bg"] == Admin(None, None, Some("admin@abv.bg"), Some("1234"), None)
    ensures "admin" in r <==> "admin" in repo
    ensures forall u :: u in repo && u != "admin@abv.bg" ==> r[u] == repo[u]
  {
    var admin := NewAdmin();
    var admin := admin.(username := Some("admin"));
    var admin := admin.(password := Some("1234"));
    var admin := admin.(username := Some("admin@abv.bg"));
    Persist(repo, admin).0
  }

  /** `initTest`: as `initAdmin`, the second username wins. */
  function InitTest(repo: AdminRepository): (r: AdminRepository)
    ensures r.Keys == repo.Keys + {"test@abv.bg"}
    ensures r["test@abv.bg"] == Admin(None, None, Some("test@abv.bg"), Some("1234"), None)
    ensures "testUser" in r <==> "testUser" in repo
    ensures forall u :: u in repo && u != "test@abv.bg" ==> r[u] == repo[u]
  {
    var test := NewAdmin();
    var test := test.(username := Some("testUser"));
    var test := test.(password := Some("1234"));
    var test := test.(username := Some("test@abv.bg"));
    Persist(repo, test).0
  }
}
