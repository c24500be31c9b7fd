/**
 Model of the data steps of migration t7u8v9w0x1y2 (organization memberships and project grants). Tables are
 maps keyed by their unique keys; each method is one SQL statement. An aborted upgrade is rolled back.
 */
module Memberships {
  import opened Text

  type Id = nat
  type Permission = string

  /** `registration` is registration_enabled, None for NULL. */
  datatype Org = Org(slug: string, registration: Option<bool>)
  datatype User = User(org: Option<Id>, admin: bool, active: bool)
  datatype Project = Project(owner: Id, org: Option<Id>)
  datatype Membership = Membership(role: string, active: bool)
  datatype Json = SqlNull | Array(items: seq<Permission>) | NotArray

  datatype Tables = Tables(
    orgs: map<Id, Org>,
    users: map<Id, User>,
    projects: map<Id, Project>,
    members: map<(Id, Id), Membership>,   // by (org, user)
    grants: map<(Id, Id), Json>)          // by (project, user)

  const DEFAULT_SLUG := "default"

  const OWNER_PERMISSIONS: Json := Array([
    "project:read", "project:write", "project:admin", "crawl:manage",
    "documents:manage", "connectors:manage", "chat:use", "search:use",
    "analytics:read", "api_keys:manage", "widgets:manage", "settings:manage"])

  function RoleOf(u: User): string {
    if u.admin then "org_admin" else "member"
  }

  ghost predicate SlugsUnique(orgs: map<Id, Org>) {
    forall i, j :: i in orgs && j in orgs && orgs[i].slug == orgs[j].slug ==> i == j
  }

  ghost predicate HomesExist(users: map<Id, User>, orgs: set<Id>) {
    forall u :: u in users && users[u].org.Some? ==> users[u].org.value in orgs
  }

  ghost predicate ProjectsLinked(projects: map<Id, Project>, users: set<Id>, orgs: set<Id>) {
    && (forall p :: p in projects ==> projects[p].owner in users)
    && (forall p :: p in projects && projects[p].org.Some? ==> projects[p].org.value in orgs)
  }

  ghost predicate KeysLinked(keys: set<(Id, Id)>, first: set<Id>, second: set<Id>) {
    forall k :: k in keys ==> k.0 in first && k.1 in second
  }

  /** Foreign keys, and Organization.slug being unique. */
  ghost predicate Valid(t: Tables) {
    match t
    case Tables(orgs, users, projects, members, grants) =>
      && SlugsUnique(orgs)
      && HomesExist(users, orgs.Keys)
      && ProjectsLinked(projects, users.Keys, orgs.Keys)
      && KeysLinked(members.Keys, orgs.Keys, users.Keys)
      && KeysLinked(grants.Keys, projects.Keys, users.Keys)
  }

  ghost predicate IsLeast(m: Id, ids: set<Id>) {
    m in ids && forall i :: i in ids ==> m <= i
  }

  /** Some organization other than number 1 already has the default slug. */
  predicate DefaultSlugTaken(orgs: map<Id, Org>) {
    1 !in orgs && exists i :: i in orgs && orgs[i].slug == DEFAULT_SLUG
  }

  // ---- What the upgrade promises, table by table (b before, a after) -----------------------------------

  ghost predicate OrgsMigrated(b: map<Id, Org>, a: map<Id, Org>) {
    && a.Keys == b.Keys + {1}
    && (forall i :: i in a ==> a[i] == Org(if i in b then b[i].slug else DEFAULT_SLUG, Some(false)))
  }

  /** A user without an organization joins the one with the least id. */
  ghost predicate UsersMigrated(b: map<Id, User>, a: map<Id, User>, orgs: set<Id>) {
    && a.Keys == b.Keys
    && (forall u :: u in a ==> a[u].admin == b[u].admin && a[u].active == b[u].active)
    && (forall u :: u in a ==> a[u].org.Some?)
    && (forall u :: u in a ==> if b[u].org.Some? then a[u].org == b[u].org else IsLeast(a[u].org.value, orgs))
  }

  /** Old memberships as they were, and one for every user at home. */
  ghost predicate MembersMigrated(b: map<(Id, Id), Membership>, a: map<(Id, Id), Membership>, users: map<Id, User>) {
    && (forall m :: m in b ==> m in a && a[m] == b[m])
    && (forall u :: u in users && users[u].org.Some? ==> (users[u].org.value, u) in a)
    && (forall m :: m in a && m !in b ==>
          && m.1 in users && users[m.1].org == Some(m.0)
          && a[m] == Membership(RoleOf(users[m.1]), users[m.1].active))
  }

  ghost predicate ProjectsMigrated(b: map<Id, Project>, a: map<Id, Project>, users: map<Id, User>) {
    && a.Keys == b.Keys
    && (forall p :: p in a ==> a[p].owner == b[p].owner && a[p].owner in users)
    && (forall p :: p in a ==> a[p].org == if b[p].org.Some? then b[p].org else users[a[p].owner].org)
  }

  /** Every grant holds an array: its own if it had one, the owner's permissions otherwise. */
  ghost predicate GrantsMigrated(b: map<(Id, Id), Json>, a: map<(Id, Id), Json>, projects: map<Id, Project>) {
    && (forall g :: g in b ==> g in a)
    && (forall p :: p in projects ==> (p, projects[p].owner) in a)
    && (forall g :: g in a && g !in b ==> g.0 in projects && projects[g.0].owner == g.1)
    && (forall g :: g in a ==> a[g] == if g in b && b[g].Array? then b[g] else OWNER_PERMISSIONS)
  }

  ghost predicate Migrated(b: Tables, a: Tables) {
    match b
    case Tables(orgs, users, projects, members, grants) =>
      && OrgsMigrated(orgs, a.orgs)
      && UsersMigrated(users, a.users, a.orgs.Keys)
      && MembersMigrated(members, a.members, a.users)
      && ProjectsMigrated(projects, a.projects, a.users)
      && GrantsMigrated(grants, a.grants, a.projects)
  }

  // ---- The statements ------------------------------------------------------------------------------------

  /** SELECT id FROM organizations ORDER BY id LIMIT 1. */
  method FirstOrg(ids: set<Id>) returns (first: Option<Id>)
    ensures if ids == {} then first.None? else first.Some? && IsLeast(first.value, ids)
  {
    first := None;
    var rest := ids;
    while rest != {}
      invariant rest <= ids
      invariant first.None? ==> rest == ids
      invariant first.Some? ==> first.value in ids && forall i :: i in ids && i !in rest ==> first.value <= i
      decreases |rest|
    {
      var i :| i in rest;
      rest := rest - {i};
      if first.None? || i < first.value {
        first := Some(i);
      }
    }
  }

  class Database {
    var orgs: map<Id, Org>
    var users: map<Id, User>
    var projects: map<Id, Project>
    var members: map<(Id, Id), Membership>
    var grants: map<(Id, Id), Json>

    ghost function Now(): Tables
      reads this
    {
      Tables(orgs, users, projects, members, grants)
    }

    constructor (t: Tables)
      ensures Now() == t
    {
      orgs, users, projects, members, grants := t.orgs, t.users, t.projects, t.members, t.grants;
    }

    method CloseRegistration()
      modifies this`orgs
      ensures orgs.Keys == old(orgs).Keys
      ensures forall i :: i in orgs ==> orgs[i] == Org(old(orgs)[i].slug, Some(false))
    {
      orgs := map i | i in orgs ::
        if orgs[i].registration.None? || orgs[i].registration.value then orgs[i].(registration := Some(false))
        else orgs[i];
    }

    /** The two INSERTs; the second never finds the table empty. */
    method EnsureDefault() returns (ok: bool)
      modifies this`orgs
      ensures ok <==> !DefaultSlugTaken(old(orgs))
      ensures orgs == if ok && 1 !in old(orgs) then old(orgs)[1 := Org(DEFAULT_SLUG, Some(false))] else old(orgs)
    {
      if 1 !in orgs {
        if exists i :: i in orgs && orgs[i].slug == DEFAULT_SLUG {
          return false;
        }
        orgs := orgs[1 := Org(DEFAULT_SLUG, Some(false))];
      }
      assert 1 in orgs.Keys;
      if orgs.Keys == {} {
        assert false;
      }
      ok := true;
    }

    method PlaceUsers()
      requires orgs.Keys != {}
      modifies this`users
      ensures UsersMigrated(old(users), users, orgs.Keys)
    {
      var first := FirstOrg(orgs.Keys);
      users := map u | u in users :: if users[u].org.None? then users[u].(org := first) else users[u];
    }

    /** ON CONFLICT DO NOTHING: existing rows win. */
    method BackfillMembers()
      requires forall u :: u in users ==> users[u].org.Some?
      modifies this`members
      ensures MembersMigrated(old(members), members, users)
    {
      var first := FirstOrg(orgs.Keys);
      var homes := map u | u in users :: if users[u].org.Some? then users[u].org else first;
      var rows := map u | u in users && homes[u].Some? ::
        (homes[u].value, u) := Membership(RoleOf(users[u]), users[u].active);
      members := rows + members;
      forall u | u in users && users[u].org.Some? ensures (users[u].org.value, u) in members {
        assert homes[u] == users[u].org;
        assert (homes[u].value, u) in rows;
      }
    }

    method PlaceProjects()
      requires forall u :: u in users ==> users[u].org.Some?
      requires forall p :: p in projects ==> projects[p].owner in users
      modifies this`projects
      ensures ProjectsMigrated(old(projects), projects, users)
    {
      var first := FirstOrg(orgs.Keys);
      projects := map p | p in projects ::
        if projects[p].owner in users && projects[p].org.None? then
          var home := users[projects[p].owner].org;
          projects[p].(org := if home.Some? then home else first)
        else projects[p];
    }

    method GrantOwners()
      modifies this`grants
      ensures forall g :: g in old(grants) ==> g in grants && grants[g] == old(grants)[g]
      ensures forall p :: p in projects ==> (p, projects[p].owner) in grants
      ensures forall g :: g in grants && g !in old(grants) ==>
        g.0 in projects && projects[g.0].owner == g.1 && grants[g] == OWNER_PERMISSIONS
    {
      var rows := map p | p in projects :: (p, projects[p].owner) := OWNER_PERMISSIONS;
      grants := rows + grants;
      forall p | p in projects ensures (p, projects[p].owner) in grants {
        assert (p, projects[p].owner) in rows;
      }
    }

    method RepairGrants()
      modifies this`grants
      ensures grants.Keys == old(grants).Keys
      ensures forall g :: g in grants ==> grants[g] == if old(grants)[g].Array? then old(grants)[g] else OWNER_PERMISSIONS
    {
      grants := map g | g in grants :: if grants[g].SqlNull? || !grants[g].Array? then OWNER_PERMISSIONS else grants[g];
    }

    /** The statements on organizations; an abort undoes what came before it. */
    method PrepareOrgs() returns (ok: bool)
      modifies this`orgs
      ensures ok <==> !DefaultSlugTaken(old(orgs))
      ensures if ok then OrgsMigrated(old(orgs), orgs) else orgs == old(orgs)
    {
      var saved := orgs;
      CloseRegistration();
      ghost var closed := orgs;
      ok := EnsureDefault();
      if ok {
        assert forall i :: i in saved ==> saved[i].slug == closed[i].slug;
      } else {
        assert exists i :: i in closed && saved[i].slug == DEFAULT_SLUG;
        orgs := saved;
      }
    }

    method Grant()
      modifies this`grants
      ensures GrantsMigrated(old(grants), grants, projects)
    {
      GrantOwners();
      RepairGrants();
    }

    /** The whole upgrade; it aborts exactly when the default organization cannot be inserted. */
    method Upgrade() returns (ok: bool)
      requires Valid(Now())
      modifies this
      ensures ok <==> !DefaultSlugTaken(old(orgs))
      ensures if ok then Migrated(old(Now()), Now()) else Now() == old(Now())
    {
      ok := PrepareOrgs();
      if ok {
        assert 1 in orgs.Keys;
        PlaceUsers();
        BackfillMembers();
        PlaceProjects();
        Grant();
      }
    }
  }

  // ---- What follows from the upgrade ------------------------------------------------------------------------

  lemma OrgsStayUnique(b: map<Id, Org>, a: map<Id, Org>)
    requires SlugsUnique(b) && OrgsMigrated(b, a) && !DefaultSlugTaken(b)
    ensures SlugsUnique(a)
  {
    forall i, j | i in a && j in a && a[i].slug == a[j].slug ensures i == j {
      assert i in a.Keys && j in a.Keys;
    }
  }

  lemma HomesStay(b: Tables, a: Tables)
    requires HomesExist(b.users, b.orgs.Keys) && b.orgs.Keys <= a.orgs.Keys && UsersMigrated(b.users, a.users, a.orgs.Keys)
    ensures HomesExist(a.users, a.orgs.Keys)
  {
    forall u | u in a.users ensures a.users[u].org.value in a.orgs.Keys {
      assert u in b.users.Keys;
    }
  }

  lemma ProjectsStay(b: Tables, a: Tables)
    requires ProjectsLinked(b.projects, b.users.Keys, b.orgs.Keys) && b.orgs.Keys <= a.orgs.Keys
    requires HomesExist(a.users, a.orgs.Keys) && (forall u :: u in a.users ==> a.users[u].org.Some?)
    requires ProjectsMigrated(b.projects, a.projects, a.users)
    ensures ProjectsLinked(a.projects, a.users.Keys, a.orgs.Keys)
    ensures forall p :: p in a.projects ==> a.projects[p].org.Some?
  {
    forall p | p in a.projects ensures a.projects[p].org.Some? && a.projects[p].org.value in a.orgs.Keys {
      assert p in b.projects.Keys;
    }
  }

  lemma MembersStay(b: Tables, a: Tables)
    requires KeysLinked(b.members.Keys, b.orgs.Keys, b.users.Keys) && b.orgs.Keys <= a.orgs.Keys && b.users.Keys == a.users.Keys
    requires HomesExist(a.users, a.orgs.Keys) && MembersMigrated(b.members, a.members, a.users)
    ensures KeysLinked(a.members.Keys, a.orgs.Keys, a.users.Keys)
  {
    forall m | m in a.members.Keys ensures m.0 in a.orgs.Keys && m.1 in a.users.Keys {
      if m in b.members {
        assert m in b.members.Keys;
      }
    }
  }

  lemma GrantsStay(b: Tables, a: Tables)
    requires KeysLinked(b.grants.Keys, b.projects.Keys, b.users.Keys)
    requires b.projects.Keys == a.projects.Keys && b.users.Keys == a.users.Keys
    requires (forall p :: p in a.projects ==> a.projects[p].owner in a.users) && GrantsMigrated(b.grants, a.grants, a.projects)
    ensures KeysLinked(a.grants.Keys, a.projects.Keys, a.users.Keys)
  {
    forall g | g in a.grants.Keys ensures g.0 in a.projects.Keys && g.1 in a.users.Keys {
      if g in b.grants {
        assert g in b.grants.Keys;
      }
    }
  }

  /** Foreign keys and unique slugs survive. */
  lemma StaysValid(b: Tables, a: Tables)
    requires Valid(b) && Migrated(b, a) && !DefaultSlugTaken(b.orgs)
    ensures Valid(a)
  {
    OrgsStayUnique(b.orgs, a.orgs);
    HomesStay(b, a);
    ProjectsStay(b, a);
    MembersStay(b, a);
    GrantsStay(b, a);
  }

  /**
   What is added, in plain words: a new membership is that of a user in the user's organization, as "org_admin" for an admin
   and "member" for anybody else, active as the user is; the organization that is made is number 1 with the slug
   "default", closed for registration like all others; and a grant without an array gets the twelve permissions.
   */
  lemma WhatIsAdded(b: Tables, a: Tables)
    requires Valid(b) && Migrated(b, a)
    ensures forall o: Id, u: Id :: (o, u) in a.members && (o, u) !in b.members ==>
      && u in b.users && a.users[u].org == Some(o) && a.members[(o, u)].active == b.users[u].active
      && (b.users[u].admin ==> a.members[(o, u)].role == "org_admin")
      && (!b.users[u].admin ==> a.members[(o, u)].role == "member")
    ensures 1 in a.orgs && (1 !in b.orgs ==> a.orgs[1].slug == "default")
    ensures forall o :: o in a.orgs ==> a.orgs[o].registration == Some(false) && (o in b.orgs || o == 1)
    ensures forall g :: g in a.grants && (g !in b.grants || !b.grants[g].Array?) ==> a.grants[g] == Array([
      "project:read", "project:write", "project:admin", "crawl:manage", "documents:manage", "connectors:manage",
      "chat:use", "search:use", "analytics:read", "api_keys:manage", "widgets:manage", "settings:manage"])
  {
    assert 1 in a.orgs;
  }

  /**
   An upgrade that aborts had no way out: whatever is migrated as promised breaks a constraint exactly when
   the default slug is taken.
   */
  lemma AbortIsForced(b: Tables, a: Tables)
    requires Valid(b) && Migrated(b, a)
    ensures Valid(a) <==> !DefaultSlugTaken(b.orgs)
  {
    if DefaultSlugTaken(b.orgs) {
      var i :| i in b.orgs && b.orgs[i].slug == DEFAULT_SLUG;
      assert a.orgs[i].slug == a.orgs[1].slug && i != 1;
    } else {
      StaysValid(b, a);
    }
  }

  /** Such tables: organization 2 holds the slug and organization 1 was removed. */
  lemma SlugCanBeTaken()
    ensures var b := Tables(map[2 := Org(DEFAULT_SLUG, None)], map[], map[], map[], map[]);
      Valid(b) && DefaultSlugTaken(b.orgs)
  {
    assert 2 in map[2 := Org(DEFAULT_SLUG, None)];
  }

  /** The user has a home with a membership in it. */
  ghost predicate UserPlaced(t: Tables, u: Id)
    requires u in t.users
  {
    t.users[u].org.Some? && t.users[u].org.value in t.orgs && (t.users[u].org.value, u) in t.members
  }

  /** The project has an organization, and its owner a grant that holds an array. */
  ghost predicate ProjectPlaced(t: Tables, p: Id)
    requires p in t.projects
  {
    && t.projects[p].org.Some? && t.projects[p].org.value in t.orgs
    && (p, t.projects[p].owner) in t.grants && t.grants[(p, t.projects[p].owner)].Array?
  }

  lemma EveryoneIsPlaced(b: Tables, a: Tables)
    requires Valid(b) && Migrated(b, a)
    ensures forall u :: u in a.users ==> UserPlaced(a, u)
    ensures forall p :: p in a.projects ==> ProjectPlaced(a, p)
  {
    HomesStay(b, a);
    ProjectsStay(b, a);
  }

  /**
   An owner ends up a member of the project's organization exactly when the project had none, or had the
   owner's home, or the owner was a member of it all along. A project set to another organization stays there.
   */
  lemma OwnerBelongs(b: Tables, a: Tables, p: Id)
    requires Valid(b) && Migrated(b, a) && p in a.projects
    ensures a.projects[p].org.Some? && a.projects[p].owner in a.users
    ensures var owner := a.projects[p].owner;
      (a.projects[p].org.value, owner) in a.members
      <==> b.projects[p].org.None? || b.projects[p].org == a.users[owner].org || (b.projects[p].org.value, owner) in b.members
  {
    EveryoneIsPlaced(b, a);
    assert ProjectPlaced(a, p) && UserPlaced(a, a.projects[p].owner);
  }

  // ---- One outcome, and a second run -------------------------------------------------------------------------

  lemma SameMap<K, V>(a: map<K, V>, c: map<K, V>)
    requires a.Keys == c.Keys && forall k :: k in a ==> a[k] == c[k]
    ensures a == c
  {
  }

  lemma OrgsFixed(b: map<Id, Org>, a: map<Id, Org>, c: map<Id, Org>)
    requires OrgsMigrated(b, a) && OrgsMigrated(b, c)
    ensures a == c
  {
    forall i | i in a ensures i in c && a[i] == c[i] {
      assert i in a.Keys && i in c.Keys;
    }
    SameMap(a, c);
  }

  lemma UsersFixed(b: map<Id, User>, a: map<Id, User>, c: map<Id, User>, orgs: set<Id>)
    requires UsersMigrated(b, a, orgs) && UsersMigrated(b, c, orgs)
    ensures a == c
  {
    forall u | u in a ensures u in c && a[u] == c[u] {
      assert u in a.Keys && u in c.Keys;
      assert b[u].org.None? ==> a[u].org.value == c[u].org.value;
    }
    SameMap(a, c);
  }

  lemma ProjectsFixed(b: map<Id, Project>, a: map<Id, Project>, c: map<Id, Project>, users: map<Id, User>)
    requires ProjectsMigrated(b, a, users) && ProjectsMigrated(b, c, users)
    ensures a == c
  {
    forall p | p in a ensures p in c && a[p] == c[p] {
      assert p in a.Keys && p in c.Keys;
    }
    SameMap(a, c);
  }

  lemma MembersWithin(b: map<(Id, Id), Membership>, a: map<(Id, Id), Membership>, c: map<(Id, Id), Membership>, users: map<Id, User>)
    requires MembersMigrated(b, a, users) && MembersMigrated(b, c, users)
    ensures forall m :: m in a ==> m in c && c[m] == a[m]
  {
    forall m | m in a ensures m in c && c[m] == a[m] {
      if m !in b {
        var u := m.1;
        assert u in users && users[u].org.Some?;
        assert m == (users[u].org.value, u);
      }
    }
  }

  lemma GrantsWithin(b: map<(Id, Id), Json>, a: map<(Id, Id), Json>, c: map<(Id, Id), Json>, projects: map<Id, Project>)
    requires GrantsMigrated(b, a, projects) && GrantsMigrated(b, c, projects)
    ensures forall g :: g in a ==> g in c && c[g] == a[g]
  {
    forall g | g in a ensures g in c && c[g] == a[g] {
      if g !in b {
        var p := g.0;
        assert p in projects && g == (p, projects[p].owner);
      }
    }
  }

  /** The upgrade leaves no choice: two runs from the same tables end in the same tables. */
  lemma OneOutcome(b: Tables, a: Tables, c: Tables)
    requires Migrated(b, a) && Migrated(b, c)
    ensures a == c
  {
    OrgsFixed(b.orgs, a.orgs, c.orgs);
    UsersFixed(b.users, a.users, c.users, a.orgs.Keys);
    ProjectsFixed(b.projects, a.projects, c.projects, a.users);
    MembersWithin(b.members, a.members, c.members, a.users);
    MembersWithin(b.members, c.members, a.members, a.users);
    SameMap(a.members, c.members);
    GrantsWithin(b.grants, a.grants, c.grants, a.projects);
    GrantsWithin(b.grants, c.grants, a.grants, a.projects);
    SameMap(a.grants, c.grants);
  }

  lemma AlreadyMigrated(b: Tables, a: Tables)
    requires Valid(b) && Migrated(b, a)
    ensures Migrated(a, a)
  {
    EveryoneIsPlaced(b, a);
    ProjectsStay(b, a);
    assert a.orgs.Keys == a.orgs.Keys + {1};
    forall u | u in a.users && a.users[u].org.Some? ensures (a.users[u].org.value, u) in a.members {
      assert UserPlaced(a, u);
    }
  }

  /** A second upgrade cannot abort and changes nothing. */
  lemma SecondUpgradeIsIdle(b: Tables, a: Tables, c: Tables)
    requires Valid(b) && Migrated(b, a) && Migrated(a, c)
    ensures !DefaultSlugTaken(a.orgs) && c == a
  {
    AlreadyMigrated(b, a);
    OneOutcome(a, a, c);
    assert 1 in a.orgs.Keys;
  }
}
