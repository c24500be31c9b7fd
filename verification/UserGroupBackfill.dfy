/**
 Model of backend/alembic/versions/d5e6f7a8b9c0_user_groups_and_grants.py: the grants each Member
 holds on projects become user groups, one group for every distinct grant map of an organization.

 A project id is the number behind the UUID; its fixed-width text sorts and compares the same way.
 */
module UserGroupBackfill {
  import opened Text

  type Perms = seq<string>
  type Pair = (nat, Perms)    // project, permissions
  type Member = (nat, nat)    // organization, user

  /** A JSON column value: absent, decoded by the driver, or still text. */
  datatype Raw = Null | Items(items: seq<string>) | Json(text: string)

  /** The JSON decoder (None: malformed or not a list) and the permission rewrite. */
  datatype Codec = Codec(loads: string -> Option<seq<string>>, migrate: seq<string> -> Perms)

  datatype Grant = Grant(id: nat, project: nat, user: nat, raw: Raw)
  datatype Group = Group(id: nat, org: nat, name: string, key: string)
  datatype GroupGrant = GroupGrant(group: nat, project: nat, perms: Perms)

  datatype Tables = Tables(
    orgOf: map<nat, Option<nat>>,     // projects
    roles: map<Member, string>,       // organization_members
    grants: seq<Grant>,               // project_members, in the order the rows arrive
    groups: seq<Group>,
    groupMembers: seq<(nat, nat)>,    // group, user
    groupGrants: seq<GroupGrant>,
    nextGroup: nat)                   // next value of the autoincrement key

  ghost function GroupIds(t: Tables): set<nat> {
    set gr | gr in t.groups :: gr.id
  }

  function GroupKeys(t: Tables): set<(nat, string)> {
    set gr | gr in t.groups :: (gr.org, gr.key)
  }

  ghost predicate ValidGroups(groups: seq<Group>, next: nat) {
    && (forall i :: 0 <= i < |groups| ==> groups[i].id < next)
    && (forall i, j :: 0 <= i < j < |groups| ==>
          groups[i].id != groups[j].id && (groups[i].org, groups[i].key) != (groups[j].org, groups[j].key))
  }

  ghost predicate DistinctHoldings(held: seq<GroupGrant>) {
    forall i, j :: 0 <= i < j < |held| ==> (held[i].group, held[i].project) != (held[j].group, held[j].project)
  }

  /** The unique constraints and foreign keys of the tables. */
  ghost predicate Valid(t: Tables) {
    match t
    case Tables(_, _, grants, groups, members, held, next) =>
      && (forall i, j :: 0 <= i < j < |grants| ==>
            grants[i].id != grants[j].id && (grants[i].project, grants[i].user) != (grants[j].project, grants[j].user))
      && ValidGroups(groups, next)
      && NoDup(members) && (forall i :: 0 <= i < |members| ==> members[i].0 in GroupIds(t))
      && DistinctHoldings(held) && (forall i :: 0 <= i < |held| ==> held[i].group in GroupIds(t))
  }

  function LoadList(c: Codec, raw: Raw): seq<string> {
    match raw
    case Null => []
    case Items(items) => items
    case Json(text) => match c.loads(text) { case Some(items) => items case None => [] }
  }

  function Canonical(c: Codec, g: Grant): Perms {
    c.migrate(LoadList(c, g.raw))
  }

  /** The member-role principal a grant row is migrated for, if it is migrated at all. */
  function Owner(t: Tables, g: Grant): Option<Member> {
    if g.project in t.orgOf && t.orgOf[g.project].Some?
       && (t.orgOf[g.project].value, g.user) in t.roles
       && t.roles[(t.orgOf[g.project].value, g.user)] == "member"
    then Some((t.orgOf[g.project].value, g.user))
    else None
  }

  ghost predicate Participates(t: Tables, m: Member) {
    exists g :: g in t.grants && Owner(t, g) == Some(m)
  }

  /** A member's project-to-permissions map, as the set of its entries. */
  ghost function GrantMap(c: Codec, t: Tables, m: Member): set<Pair> {
    set g | g in t.grants && Owner(t, g) == Some(m) :: (g.project, Canonical(c, g))
  }

  // ---- What access means -------------------------------------------------------------------

  ghost predicate InGroup(t: Tables, org: nat, user: nat, group: nat) {
    (group, user) in t.groupMembers && exists gr :: gr in t.groups && gr.id == group && gr.org == org
  }

  /** The grant row `gg` gives the permission `s` to the user, inside the organization. */
  ghost predicate Gives(t: Tables, org: nat, user: nat, project: nat, gg: GroupGrant, s: string) {
    && gg in t.groupGrants && s in gg.perms && gg.project == project
    && InGroup(t, org, user, gg.group) && project in t.orgOf && t.orgOf[project] == Some(org)
  }

  /** Members inherit the union of the grants of their groups. */
  ghost function GroupAccess(t: Tables, org: nat, user: nat, project: nat): set<string> {
    set gg, s | gg in t.groupGrants && s in gg.perms && Gives(t, org, user, project, gg, s) :: s
  }

  /** What a member-role user holds on a project through project_members, canonicalised. */
  ghost function DirectAccess(c: Codec, t: Tables, org: nat, user: nat, project: nat): set<string> {
    set g, s | g in t.grants && g.project == project && Owner(t, g) == Some((org, user)) && s in Canonical(c, g) :: s
  }

  // ---- Fingerprints ------------------------------------------------------------------------

  function InsertByProject(x: Pair, s: seq<Pair>): seq<Pair> {
    if s == [] || x.0 < s[0].0 then [x] + s else [s[0]] + InsertByProject(x, s[1..])
  }

  /** `sorted(assignments, key=project)`, stable. */
  function Fingerprint(s: seq<Pair>): seq<Pair> {
    if s == [] then [] else InsertByProject(s[|s| - 1], Fingerprint(s[..|s| - 1]))
  }

  ghost predicate DistinctProjects(s: seq<Pair>) {
    forall i, j :: 0 <= i < j < |s| ==> s[i].0 != s[j].0
  }

  ghost predicate ByProject(s: seq<Pair>) {
    forall i, j :: 0 <= i < j < |s| ==> s[i].0 < s[j].0
  }

  lemma {:induction false} InsertByProjectAscends(x: Pair, s: seq<Pair>)
    requires ByProject(s) && forall y :: y in s ==> y.0 != x.0
    ensures ByProject(InsertByProject(x, s))
    ensures forall y :: y in InsertByProject(x, s) <==> y == x || y in s
  {
    if s != [] && !(x.0 < s[0].0) {
      InsertByProjectAscends(x, s[1..]);
      assert s == [s[0]] + s[1..];
      assert s[0].0 < x.0;
      forall y | y in s[1..] ensures s[0].0 < y.0 {}
    }
  }

  lemma {:induction false} FingerprintSorts(s: seq<Pair>)
    requires DistinctProjects(s)
    ensures ByProject(Fingerprint(s))
    ensures forall y :: y in Fingerprint(s) <==> y in s
  {
    if s != [] {
      var rest := s[..|s| - 1];
      FingerprintSorts(rest);
      InsertByProjectAscends(s[|s| - 1], Fingerprint(rest));
      assert s == rest + [s[|s| - 1]];
    }
  }

  /** Behind the head of a sorted listing stands what is not the head. */
  lemma BehindHead(s: seq<Pair>, y: Pair)
    requires s != [] && ByProject(s)
    ensures y in s[1..] <==> y in s && y != s[0]
    ensures y in s ==> s[0].0 <= y.0
  {
    assert s == [s[0]] + s[1..];
    if y in s[1..] {
      var i :| 0 <= i < |s[1..]| && s[1..][i] == y;
      assert s[0].0 < s[i + 1].0;
    }
  }

  /** A sorted listing of a map is determined by the map. */
  lemma {:induction false} SortedListingUnique(a: seq<Pair>, b: seq<Pair>)
    requires ByProject(a) && ByProject(b) && forall y :: y in a <==> y in b
    ensures a == b
  {
    assert a != [] ==> a[0] in b;
    assert b != [] ==> b[0] in a;
    if a != [] && b != [] {
      BehindHead(a, b[0]);
      BehindHead(b, a[0]);
      forall y ensures y in a[1..] <==> y in b[1..] {
        BehindHead(a, y);
        BehindHead(b, y);
      }
      SortedListingUnique(a[1..], b[1..]);
      assert a == [a[0]] + a[1..] && b == [b[0]] + b[1..];
    }
  }

  // ---- First loop: rows by (organization, user) --------------------------------------------

  datatype Entry = Entry(id: nat, project: nat, perms: Perms)

  function EntryOf(c: Codec, g: Grant): Entry {
    Entry(g.id, g.project, Canonical(c, g))
  }

  /** The rows of one principal, in arrival order. */
  function RowsOf(c: Codec, t: Tables, gs: seq<Grant>, m: Member): seq<Entry> {
    if gs == [] then []
    else
      var last := gs[|gs| - 1];
      RowsOf(c, t, gs[..|gs| - 1], m) + if Owner(t, last) == Some(m) then [EntryOf(c, last)] else []
  }

  lemma {:induction false} RowsOfMeaning(c: Codec, t: Tables, gs: seq<Grant>, m: Member)
    ensures forall e :: e in RowsOf(c, t, gs, m) <==> exists g :: g in gs && Owner(t, g) == Some(m) && EntryOf(c, g) == e
  {
    if gs != [] {
      var rest := gs[..|gs| - 1];
      RowsOfMeaning(c, t, rest, m);
      assert gs == rest + [gs[|gs| - 1]];
    }
  }

  lemma RowsMore(c: Codec, t: Tables, gs: seq<Grant>, g: Grant, m: Member)
    ensures RowsOf(c, t, gs + [g], m) == RowsOf(c, t, gs, m) + if Owner(t, g) == Some(m) then [EntryOf(c, g)] else []
  {
    assert (gs + [g])[..|gs|] == gs;
  }

  /** A row of a principal does not name the project of a later grant row of the same user. */
  lemma OtherProject(c: Codec, t: Tables, n: nat, m: Member, e: Entry)
    requires Valid(t) && n < |t.grants| && Owner(t, t.grants[n]) == Some(m) && e in RowsOf(c, t, t.grants[..n], m)
    ensures e.project != t.grants[n].project
  {
    RowsOfMeaning(c, t, t.grants[..n], m);
    var g :| g in t.grants[..n] && Owner(t, g) == Some(m) && EntryOf(c, g) == e;
    var i :| 0 <= i < n && t.grants[i] == g;
  }

  lemma {:induction false} RowsDistinct(c: Codec, t: Tables, n: nat, m: Member)
    requires Valid(t) && n <= |t.grants|
    ensures DistinctProjects(Pairs(RowsOf(c, t, t.grants[..n], m)))
  {
    if n > 0 {
      var before, last := RowsOf(c, t, t.grants[..n - 1], m), t.grants[n - 1];
      RowsDistinct(c, t, n - 1, m);
      assert t.grants[..n] == t.grants[..n - 1] + [last];
      RowsMore(c, t, t.grants[..n - 1], last, m);
      if Owner(t, last) == Some(m) {
        forall i | 0 <= i < |before| ensures before[i].project != last.project {
          OtherProject(c, t, n - 1, m, before[i]);
        }
        assert Pairs(before + [EntryOf(c, last)]) == Pairs(before) + [(last.project, Canonical(c, last))];
        DistinctMore(Pairs(before), (last.project, Canonical(c, last)));
      } else {
        assert before + [] == before;
      }
    }
  }

  lemma DistinctMore(s: seq<Pair>, x: Pair)
    requires DistinctProjects(s) && forall i :: 0 <= i < |s| ==> s[i].0 != x.0
    ensures DistinctProjects(s + [x])
  {
  }

  lemma AllRowsDistinct(c: Codec, t: Tables, m: Member)
    requires Valid(t)
    ensures DistinctProjects(Pairs(RowsOf(c, t, t.grants, m)))
  {
    RowsDistinct(c, t, |t.grants|, m);
    assert t.grants[..|t.grants|] == t.grants;
  }

  function Pairs(rows: seq<Entry>): (r: seq<Pair>)
    ensures |r| == |rows|
  {
    seq(|rows|, i requires 0 <= i < |rows| => (rows[i].project, rows[i].perms))
  }

  function Print(c: Codec, t: Tables, m: Member): seq<Pair> {
    Fingerprint(Pairs(RowsOf(c, t, t.grants, m)))
  }

  lemma PrintMeaning(c: Codec, t: Tables, m: Member)
    requires Valid(t)
    ensures ByProject(Print(c, t, m))
    ensures forall x :: x in Print(c, t, m) <==> x in GrantMap(c, t, m)
  {
    RowsOfMeaning(c, t, t.grants, m);
    AllRowsDistinct(c, t, m);
    var rows := RowsOf(c, t, t.grants, m);
    FingerprintSorts(Pairs(rows));
    forall x ensures x in Pairs(rows) <==> x in GrantMap(c, t, m) {
      if x in Pairs(rows) {
        var i :| 0 <= i < |rows| && Pairs(rows)[i] == x;
        assert rows[i] in rows;
      }
      if x in GrantMap(c, t, m) {
        var g :| g in t.grants && Owner(t, g) == Some(m) && (g.project, Canonical(c, g)) == x;
        assert EntryOf(c, g) in rows;
        var i :| 0 <= i < |rows| && rows[i] == EntryOf(c, g);
        assert Pairs(rows)[i] == x;
      }
    }
  }

  /** Equal fingerprints are equal grant maps, whatever order the rows arrived in. */
  lemma PrintsAgreeExactly(c: Codec, t: Tables, m: Member, n: Member)
    requires Valid(t)
    ensures Print(c, t, m) == Print(c, t, n) <==> GrantMap(c, t, m) == GrantMap(c, t, n)
  {
    PrintMeaning(c, t, m);
    PrintMeaning(c, t, n);
    if GrantMap(c, t, m) == GrantMap(c, t, n) {
      SortedListingUnique(Print(c, t, m), Print(c, t, n));
    }
  }

  type RowMap = map<Member, seq<Entry>>

  /** `rows` holds what the grants `gs` bring to each of `keys`, and to nobody else. */
  ghost predicate Collected(c: Codec, t: Tables, gs: seq<Grant>, keys: seq<Member>, rows: RowMap) {
    && NoDup(keys) && (forall m :: m in keys <==> m in rows)
    && (forall m :: m in rows ==> rows[m] == RowsOf(c, t, gs, m) != [])
    && (forall m :: m !in rows ==> RowsOf(c, t, gs, m) == [])
  }

  function KeysWith(keys: seq<Member>, rows: RowMap, owner: Option<Member>): seq<Member> {
    if owner.Some? && owner.value !in rows then keys + [owner.value] else keys
  }

  function RowsWith(rows: RowMap, owner: Option<Member>, e: Entry): RowMap {
    if owner.None? then rows
    else rows[owner.value := (if owner.value in rows then rows[owner.value] else []) + [e]]
  }

  lemma CollectedMore(c: Codec, t: Tables, gs: seq<Grant>, g: Grant, keys: seq<Member>, rows: RowMap)
    requires Collected(c, t, gs, keys, rows)
    ensures Collected(c, t, gs + [g], KeysWith(keys, rows, Owner(t, g)), RowsWith(rows, Owner(t, g), EntryOf(c, g)))
  {
    forall m { RowsMore(c, t, gs, g, m); }
  }

  method CollectRow(keys: seq<Member>, rows: RowMap, owner: Option<Member>, e: Entry) returns (keys': seq<Member>, rows': RowMap)
    ensures keys' == KeysWith(keys, rows, owner) && rows' == RowsWith(rows, owner, e)
  {
    keys', rows' := keys, rows;
    if owner.Some? {
      var m := owner.value;
      if m !in rows' {
        keys' := keys' + [m];
        rows' := rows'[m := []];
      }
      rows' := rows'[m := rows'[m] + [e]];
    }
  }

  method CollectRows(c: Codec, t: Tables) returns (keys: seq<Member>, rows: RowMap)
    ensures NoDup(keys) && forall m :: m in keys <==> m in rows
    ensures forall m :: m in rows <==> Participates(t, m)
    ensures forall m :: m in rows ==> rows[m] == RowsOf(c, t, t.grants, m)
  {
    keys, rows := [], map[];
    for i := 0 to |t.grants|
      invariant Collected(c, t, t.grants[..i], keys, rows)
    {
      var g := t.grants[i];
      var owner := Owner(t, g);
      CollectedMore(c, t, t.grants[..i], g, keys, rows);
      assert t.grants[..i + 1] == t.grants[..i] + [g];
      keys, rows := CollectRow(keys, rows, owner, EntryOf(c, g));
    }
    assert t.grants[..|t.grants|] == t.grants;
    AllCollected(c, t, keys, rows);
  }

  lemma AllCollected(c: Codec, t: Tables, keys: seq<Member>, rows: RowMap)
    requires Collected(c, t, t.grants, keys, rows)
    ensures forall m :: m in rows <==> Participates(t, m)
  {
    forall m ensures m in rows <==> Participates(t, m) {
      SomeRow(c, t, m);
    }
  }

  lemma SomeRow(c: Codec, t: Tables, m: Member)
    ensures RowsOf(c, t, t.grants, m) != [] <==> Participates(t, m)
  {
    RowsOfMeaning(c, t, t.grants, m);
    var rows := RowsOf(c, t, t.grants, m);
    if rows != [] {
      assert rows[0] in rows;
    }
    if Participates(t, m) {
      var g :| g in t.grants && Owner(t, g) == Some(m);
      assert EntryOf(c, g) in rows;
    }
  }

  // ---- Second loop: users by fingerprint, inside each organization ---------------------------

  datatype Clusters = Clusters(
    orgs: seq<nat>,                               // organizations, in first-seen order
    prints: map<nat, seq<seq<Pair>>>,             // fingerprints of one organization, in first-seen order
    users: map<(nat, seq<Pair>), seq<nat>>,
    assignments: map<seq<Pair>, seq<Pair>>,       // the last assignment seen with a fingerprint
    deleteIds: seq<nat>)

  ghost predicate Nested(cl: Clusters) {
    match cl
    case Clusters(orgs, prints, users, _, _) =>
      && NoDup(orgs) && (forall o :: o in orgs <==> o in prints)
      && (forall o :: o in prints ==> NoDup(prints[o]))
      && (forall o, f :: (o, f) in users <==> o in prints && f in prints[o])
  }

  ghost predicate WellFormed(cl: Clusters) {
    match cl
    case Clusters(_, _, users, assignments, _) =>
      && Nested(cl)
      && (forall k :: k in users ==> users[k] != [] && k.1 in assignments)
      && (forall f :: f in assignments ==> DistinctProjects(assignments[f]) && Fingerprint(assignments[f]) == f)
  }

  ghost predicate Places(c: Codec, t: Tables, done: seq<Member>, cl: Clusters) {
    && (forall m :: m in done ==> (m.0, Print(c, t, m)) in cl.users && m.1 in cl.users[(m.0, Print(c, t, m))])
    && (forall k, u :: k in cl.users && u in cl.users[k] ==> (k.0, u) in done && Print(c, t, (k.0, u)) == k.1)
  }

  ghost predicate Deletes(c: Codec, t: Tables, done: seq<Member>, ids: seq<nat>) {
    forall id :: id in ids <==> exists m, e :: m in done && e in RowsOf(c, t, t.grants, m) && e.id == id
  }

  /** One turn of the loop: `user` of `org` joins the cluster of fingerprint `f`. */
  function Join(cl: Clusters, m: Member, f: seq<Pair>, assignment: seq<Pair>, ids: seq<nat>): Clusters {
    var seen := if m.0 in cl.prints then cl.prints[m.0] else [];
    var k := (m.0, f);
    Clusters(
      if m.0 in cl.prints then cl.orgs else cl.orgs + [m.0],
      cl.prints[m.0 := if k in cl.users then seen else seen + [f]],
      cl.users[k := (if k in cl.users then cl.users[k] else []) + [m.1]],
      cl.assignments[f := assignment],
      cl.deleteIds + ids)
  }

  lemma JoinPrints(cl: Clusters, m: Member, f: seq<Pair>)
    requires Nested(cl)
    ensures var seen := if m.0 in cl.prints then cl.prints[m.0] else [];
      var now := if (m.0, f) in cl.users then seen else seen + [f];
      NoDup(now) && forall g :: g in now <==> (m.0, g) in cl.users || g == f
  {
    var seen := if m.0 in cl.prints then cl.prints[m.0] else [];
    assert forall g :: g in seen <==> (m.0, g) in cl.users;
  }

  lemma JoinNested(cl: Clusters, m: Member, f: seq<Pair>, assignment: seq<Pair>, ids: seq<nat>)
    requires Nested(cl)
    ensures Nested(Join(cl, m, f, assignment, ids))
  {
    var cl' := Join(cl, m, f, assignment, ids);
    JoinPrints(cl, m, f);
    forall o, g ensures (o, g) in cl'.users <==> o in cl'.prints && g in cl'.prints[o] {
      assert (o, g) in cl'.users <==> (o, g) in cl.users || (o, g) == (m.0, f);
    }
  }

  lemma JoinWellFormed(cl: Clusters, m: Member, f: seq<Pair>, assignment: seq<Pair>, ids: seq<nat>)
    requires WellFormed(cl) && DistinctProjects(assignment) && Fingerprint(assignment) == f
    ensures WellFormed(Join(cl, m, f, assignment, ids))
  {
    JoinNested(cl, m, f, assignment, ids);
  }

  lemma JoinPlaces(c: Codec, t: Tables, done: seq<Member>, cl: Clusters, m: Member, assignment: seq<Pair>, ids: seq<nat>)
    requires Places(c, t, done, cl)
    ensures Places(c, t, done + [m], Join(cl, m, Print(c, t, m), assignment, ids))
  {
    var f := Print(c, t, m);
    var cl' := Join(cl, m, f, assignment, ids);
    forall n | n in done + [m] ensures (n.0, Print(c, t, n)) in cl'.users && n.1 in cl'.users[(n.0, Print(c, t, n))] {
      assert n in done || n == m;
    }
    forall k, u | k in cl'.users && u in cl'.users[k] ensures (k.0, u) in done + [m] && Print(c, t, (k.0, u)) == k.1 {
      if k == (m.0, f) && u == m.1 {
        assert (k.0, u) == m;
      } else {
        assert k in cl.users && u in cl.users[k];
      }
    }
  }

  ghost predicate Clustered(c: Codec, t: Tables, done: seq<Member>, cl: Clusters) {
    WellFormed(cl) && Places(c, t, done, cl) && Deletes(c, t, done, cl.deleteIds)
  }

  function Ids(rows: seq<Entry>): (r: seq<nat>)
    ensures |r| == |rows| && forall j :: 0 <= j < |rows| ==> r[j] == rows[j].id
  {
    seq(|rows|, j requires 0 <= j < |rows| => rows[j].id)
  }

  lemma JoinClustered(c: Codec, t: Tables, done: seq<Member>, cl: Clusters, m: Member, rows: seq<Entry>, f: seq<Pair>, assignment: seq<Pair>)
    requires Valid(t) && Clustered(c, t, done, cl)
    requires rows == RowsOf(c, t, t.grants, m) && assignment == Pairs(rows) && f == Fingerprint(assignment)
    ensures Clustered(c, t, done + [m], Join(cl, m, f, assignment, Ids(rows)))
  {
    var ids := Ids(rows);
    AllRowsDistinct(c, t, m);
    JoinWellFormed(cl, m, f, assignment, ids);
    JoinPlaces(c, t, done, cl, m, assignment, ids);
    DeletesMore(c, t, done, cl.deleteIds, m, ids);
  }

  method AddUser(c: Codec, t: Tables, ghost done: seq<Member>, cl: Clusters, m: Member, rows: seq<Entry>) returns (cl': Clusters)
    requires Valid(t) && Clustered(c, t, done, cl) && rows == RowsOf(c, t, t.grants, m)
    ensures Clustered(c, t, done + [m], cl')
  {
    var assignment := Pairs(rows);
    var f := Fingerprint(assignment);
    JoinClustered(c, t, done, cl, m, rows, f, assignment);
    cl' := Join(cl, m, f, assignment, Ids(rows));
  }

  method ClusterUsers(c: Codec, t: Tables, keys: seq<Member>, rows: map<Member, seq<Entry>>) returns (cl: Clusters)
    requires Valid(t)
    requires forall m :: m in keys ==> m in rows && rows[m] == RowsOf(c, t, t.grants, m)
    ensures Clustered(c, t, keys, cl)
  {
    cl := Clusters([], map[], map[], map[], []);
    for i := 0 to |keys|
      invariant Clustered(c, t, keys[..i], cl)
    {
      assert keys[..i + 1] == keys[..i] + [keys[i]];
      cl := AddUser(c, t, keys[..i], cl, keys[i], rows[keys[i]]);
    }
    assert keys[..|keys|] == keys;
  }

  lemma DeletesMore(c: Codec, t: Tables, done: seq<Member>, ids: seq<nat>, m: Member, more: seq<nat>)
    requires Deletes(c, t, done, ids)
    requires var rows := RowsOf(c, t, t.grants, m); |more| == |rows| && forall j :: 0 <= j < |rows| ==> more[j] == rows[j].id
    ensures Deletes(c, t, done + [m], ids + more)
  {
    var rows := RowsOf(c, t, t.grants, m);
    forall id ensures id in more <==> exists e :: e in rows && e.id == id {
      if id in more {
        var j :| 0 <= j < |more| && more[j] == id;
        assert rows[j] in rows && rows[j].id == id;
      }
      if e :| e in rows && e.id == id {
        var j :| 0 <= j < |rows| && rows[j] == e;
        assert more[j] == id;
      }
    }
    forall id ensures id in ids + more <==> exists n, e :: n in done + [m] && e in RowsOf(c, t, t.grants, n) && e.id == id {
      if id in ids {
        var n, e :| n in done && e in RowsOf(c, t, t.grants, n) && e.id == id;
        assert n in done + [m];
      }
      if id in more {
        var e :| e in rows && e.id == id;
        assert m in done + [m];
      }
    }
  }

  // ---- Fresh names -------------------------------------------------------------------------

  const STEM := "Migrated access"
  const KEY_STEM := "migrated access"

  function NameFor(n: nat): string {
    if n == 1 then STEM else STEM + " " + Decimal(n)
  }

  function KeyOf(name: string): string {
    Lower(Strip(name))
  }

  lemma StemKey(tail: string)
    requires Lower(tail) == tail && (tail != [] ==> !IsSpace(tail[|tail| - 1]))
    ensures KeyOf(STEM + tail) == KEY_STEM + tail
  {
    StripKeeps(STEM + tail);
    LowerConcat(STEM, tail);
    assert Lower(STEM) == KEY_STEM;
  }

  lemma NumberedTail(n: nat)
    ensures var tail := " " + Decimal(n); Lower(tail) == tail && !IsSpace(tail[|tail| - 1])
  {
    DecimalNonEmpty(n);
    var tail := " " + Decimal(n);
    assert tail[|tail| - 1] in Decimal(n);
    forall i | 0 <= i < |tail| ensures LowerChar(tail[i]) == tail[i] {
      assert i > 0 ==> tail[i] in Decimal(n);
    }
  }

  lemma NameForKey(n: nat)
    ensures KeyOf(NameFor(n)) == if n == 1 then KEY_STEM else KEY_STEM + (" " + Decimal(n))
  {
    if n == 1 {
      StemKey("");
      assert STEM + "" == STEM;
    } else {
      NumberedTail(n);
      StemKey(" " + Decimal(n));
      assert NameFor(n) == STEM + (" " + Decimal(n));
    }
  }

  lemma NameForInjective(m: nat, n: nat)
    requires KeyOf(NameFor(m)) == KeyOf(NameFor(n))
    ensures m == n
  {
    NameForKey(m);
    NameForKey(n);
    TailsAgree(KEY_STEM, if m == 1 then "" else " " + Decimal(m), if n == 1 then "" else " " + Decimal(n));
    if m != 1 && n != 1 {
      TailsAgree(" ", Decimal(m), Decimal(n));
      DecimalInjective(m, n);
    }
  }

  lemma TailsAgree(stem: string, a: string, b: string)
    requires stem + a == stem + b || (a == "" && stem == stem + b) || (b == "" && stem + a == stem)
    ensures a == b
  {
    assert a == (stem + a)[|stem|..] && b == (stem + b)[|stem|..];
  }

  /** The occupied keys whose suffix the search has not tried yet. */
  ghost function Untried(existing: set<(nat, string)>, org: nat, suffix: nat): set<(nat, string)> {
    set e | e in existing && !Tried(org, suffix, e)
  }

  ghost predicate Tried(org: nat, suffix: nat, e: (nat, string)) {
    exists k :: 2 <= k < suffix && e == (org, KeyOf(NameFor(k)))
  }

  lemma TriedNext(org: nat, suffix: nat, e: (nat, string))
    requires suffix >= 2
    ensures Tried(org, suffix + 1, e) <==> Tried(org, suffix, e) || e == (org, KeyOf(NameFor(suffix)))
    ensures e == (org, KeyOf(NameFor(suffix))) ==> !Tried(org, suffix, e)
  {
    if e == (org, KeyOf(NameFor(suffix))) && Tried(org, suffix, e) {
      var k :| 2 <= k < suffix && e == (org, KeyOf(NameFor(k)));
      NameForInjective(suffix, k);
    }
  }

  lemma UntriedShrinks(existing: set<(nat, string)>, org: nat, suffix: nat)
    requires suffix >= 2
    ensures |Untried(existing, org, suffix + 1)| == |Untried(existing, org, suffix)| - if Taken(existing, org, suffix) then 1 else 0
  {
    var tried := (org, KeyOf(NameFor(suffix)));
    forall e { TriedNext(org, suffix, e); }
    assert Untried(existing, org, suffix + 1) == Untried(existing, org, suffix) - {tried};
  }

  /** The name with this number is taken in the organization. */
  ghost predicate Taken(existing: set<(nat, string)>, org: nat, n: nat) {
    (org, KeyOf(NameFor(n))) in existing
  }

  /** The preferred number if it is free, else the least free number from 2 on. */
  ghost predicate FirstFree(existing: set<(nat, string)>, org: nat, preferred: nat, n: nat) {
    && !Taken(existing, org, n)
    && (n != preferred ==> Taken(existing, org, preferred) && n >= 2 && forall k :: 2 <= k < n ==> Taken(existing, org, k))
  }

  /** The search from `suffix` on. It ends, as each failed try uses up an occupied key. */
  ghost function Search(existing: set<(nat, string)>, org: nat, suffix: nat): nat
    requires suffix >= 2
    decreases |Untried(existing, org, suffix)|
  {
    UntriedShrinks(existing, org, suffix);
    if Taken(existing, org, suffix) then Search(existing, org, suffix + 1) else suffix
  }

  ghost function Number(existing: set<(nat, string)>, org: nat, preferred: nat): nat {
    if Taken(existing, org, preferred) then Search(existing, org, 2) else preferred
  }

  lemma {:induction false} SearchFinds(existing: set<(nat, string)>, org: nat, suffix: nat)
    requires suffix >= 2
    ensures suffix <= Search(existing, org, suffix) && !Taken(existing, org, Search(existing, org, suffix))
    decreases |Untried(existing, org, suffix)|
  {
    UntriedShrinks(existing, org, suffix);
    if Taken(existing, org, suffix) {
      SearchFinds(existing, org, suffix + 1);
    }
  }

  lemma {:induction false} SearchPasses(existing: set<(nat, string)>, org: nat, suffix: nat, k: nat)
    requires 2 <= suffix <= k < Search(existing, org, suffix)
    ensures Taken(existing, org, k)
    decreases k - suffix
  {
    if suffix < k {
      SearchPasses(existing, org, suffix + 1, k);
    }
  }

  lemma NumberIsFirstFree(existing: set<(nat, string)>, org: nat, preferred: nat)
    ensures FirstFree(existing, org, preferred, Number(existing, org, preferred))
  {
    SearchFinds(existing, org, 2);
    forall k: nat | 2 <= k < Search(existing, org, 2) { SearchPasses(existing, org, 2, k); }
  }

  method FreshName(existing: set<(nat, string)>, org: nat, index: nat) returns (name: string, key: string)
    requires index >= 1
    ensures key == KeyOf(name) && (org, key) !in existing
    ensures name == NameFor(Number(existing, org, index)) && FirstFree(existing, org, index, Number(existing, org, index))
  {
    NumberIsFirstFree(existing, org, index);
    name := NameFor(index);
    key := KeyOf(name);
    var suffix := 2;
    ghost var n := index;
    while (org, key) in existing
      invariant suffix >= 2 && name == NameFor(n) && key == KeyOf(name)
      invariant Number(existing, org, index) == if (org, key) in existing then Search(existing, org, suffix) else n
      decreases |Untried(existing, org, suffix)| + if (org, key) in existing then 1 else 0
    {
      UntriedShrinks(existing, org, suffix);
      name := NameFor(suffix);
      key := KeyOf(name);
      n := suffix;
      suffix := suffix + 1;
    }
  }

  // ---- Third loop: one group per fingerprint -------------------------------------------------

  /** One group to create: its cluster, its name, its members and the grants written for it. */
  datatype NewGroup = NewGroup(org: nat, mark: seq<Pair>, name: string, key: string, users: seq<nat>, grants: seq<Pair>)

  function Projects(s: seq<Pair>): set<nat> {
    set x | x in s :: x.0
  }

  /** The `seen_projects` filter: the first entry of each project. */
  function FirstPerProject(s: seq<Pair>): seq<Pair> {
    if s == [] then []
    else
      var rest, last := s[..|s| - 1], s[|s| - 1];
      FirstPerProject(rest) + if last.0 in Projects(rest) then [] else [last]
  }

  lemma {:induction false} FirstPerProjectKeepsAll(s: seq<Pair>)
    requires DistinctProjects(s)
    ensures FirstPerProject(s) == s
  {
    if s != [] {
      var rest, last := s[..|s| - 1], s[|s| - 1];
      FirstPerProjectKeepsAll(rest);
      assert last.0 !in Projects(rest) by {
        forall x | x in rest ensures x.0 != last.0 {
          var i :| 0 <= i < |rest| && rest[i] == x;
          assert s[i].0 != s[|s| - 1].0;
        }
      }
      assert s == rest + [last];
    }
  }

  function MemberRows(group: nat, users: seq<nat>): (r: seq<(nat, nat)>)
    ensures |r| == |users|
  {
    seq(|users|, i requires 0 <= i < |users| => (group, users[i]))
  }

  function GrantRows(group: nat, grants: seq<Pair>): (r: seq<GroupGrant>)
    ensures |r| == |grants|
  {
    seq(|grants|, i requires 0 <= i < |grants| => GroupGrant(group, grants[i].0, grants[i].1))
  }

  lemma OneMoreAssignment(group: nat, s: seq<Pair>, i: nat)
    requires i < |s|
    ensures Projects(s[..i + 1]) == Projects(s[..i]) + {s[i].0}
    ensures GrantRows(group, FirstPerProject(s[..i + 1])) == GrantRows(group, FirstPerProject(s[..i])) +
      if s[i].0 in Projects(s[..i]) then [] else [GroupGrant(group, s[i].0, s[i].1)]
  {
    assert s[..i + 1] == s[..i] + [s[i]];
    assert s[..i + 1][..i] == s[..i];
  }

  function Add(t: Tables, n: NewGroup): Tables {
    t.(groups := t.groups + [Group(t.nextGroup, n.org, n.name, n.key)],
       groupMembers := t.groupMembers + MemberRows(t.nextGroup, n.users),
       groupGrants := t.groupGrants + GrantRows(t.nextGroup, n.grants),
       nextGroup := t.nextGroup + 1)
  }

  function AddAll(t: Tables, made: seq<NewGroup>): Tables {
    if made == [] then t else Add(AddAll(t, made[..|made| - 1]), made[|made| - 1])
  }

  function Unmigrated(t: Tables, gs: seq<Grant>): seq<Grant> {
    if gs == [] then []
    else
      var last := gs[|gs| - 1];
      Unmigrated(t, gs[..|gs| - 1]) + if Owner(t, last).Some? then [] else [last]
  }

  /** The sorted members of a cluster and the grants its fingerprint stands for. */
  ghost predicate IsCluster(c: Codec, t: Tables, org: nat, mark: seq<Pair>, users: seq<nat>, grants: seq<Pair>) {
    && users != [] && Ascending(NatLt, users)
    && (forall u :: u in users <==> Participates(t, (org, u)) && Print(c, t, (org, u)) == mark)
    && DistinctProjects(grants) && (forall x :: x in grants <==> x in mark)
  }

  ghost predicate IsNewGroup(c: Codec, t: Tables, n: NewGroup) {
    IsCluster(c, t, n.org, n.mark, n.users, n.grants) && n.key == KeyOf(n.name)
  }

  ghost predicate FreshKeys(t: Tables, made: seq<NewGroup>) {
    && (forall i :: 0 <= i < |made| ==> (made[i].org, made[i].key) !in GroupKeys(t))
    && (forall i, j :: 0 <= i < j < |made| ==> (made[i].org, made[i].key) != (made[j].org, made[j].key))
  }

  ghost predicate DistinctClusters(made: seq<NewGroup>) {
    forall i, j :: 0 <= i < j < |made| ==> (made[i].org, made[i].mark) != (made[j].org, made[j].mark)
  }

  ghost predicate Covers(made: seq<NewGroup>, org: nat, f: seq<Pair>) {
    exists k :: 0 <= k < |made| && made[k].org == org && made[k].mark == f
  }

  /** One execution of the migration: the tables before and after it and the groups it created. */
  datatype Run = Run(c: Codec, t: Tables, t': Tables, made: seq<NewGroup>)

  ghost predicate Migrated(r: Run) {
    match r
    case Run(c, t, t', made) =>
      && Valid(t)
      && t' == AddAll(t, made).(grants := Unmigrated(t, t.grants))
      && (forall i :: 0 <= i < |made| ==> IsNewGroup(c, t, made[i]))
      && DistinctClusters(made) && FreshKeys(t, made)
      && (forall m :: Participates(t, m) ==> Covers(made, m.0, Print(c, t, m)))
  }

  /** `DELETE ... WHERE id IN (ids)` */
  function Without(gs: seq<Grant>, ids: seq<nat>): seq<Grant> {
    if gs == [] then []
    else
      var last := gs[|gs| - 1];
      Without(gs[..|gs| - 1], ids) + if last.id in ids then [] else [last]
  }

  lemma {:induction false} WithoutNothing(gs: seq<Grant>)
    ensures Without(gs, []) == gs
  {
    if gs != [] {
      WithoutNothing(gs[..|gs| - 1]);
      assert gs == gs[..|gs| - 1] + [gs[|gs| - 1]];
    }
  }

  lemma DeletedExactly(c: Codec, t: Tables, keys: seq<Member>, ids: seq<nat>, g: Grant)
    requires Valid(t) && g in t.grants && Deletes(c, t, keys, ids)
    requires forall m :: m in keys <==> Participates(t, m)
    ensures g.id in ids <==> Owner(t, g).Some?
  {
    if Owner(t, g).Some? {
      var m := Owner(t, g).value;
      assert m in keys;
      RowsOfMeaning(c, t, t.grants, m);
      assert EntryOf(c, g) in RowsOf(c, t, t.grants, m);
    }
    if g.id in ids {
      var m, e :| m in keys && e in RowsOf(c, t, t.grants, m) && e.id == g.id;
      RowsOfMeaning(c, t, t.grants, m);
      var h :| h in t.grants && Owner(t, h) == Some(m) && EntryOf(c, h) == e;
      assert h.id == g.id;
      IdsAreKeys(t, g, h);
    }
  }

  lemma IdsAreKeys(t: Tables, g: Grant, h: Grant)
    requires Valid(t) && g in t.grants && h in t.grants && g.id == h.id
    ensures g == h
  {
  }

  lemma {:induction false} DeleteDropsMigrated(t: Tables, gs: seq<Grant>, ids: seq<nat>)
    requires forall g :: g in gs ==> (g.id in ids <==> Owner(t, g).Some?)
    ensures Without(gs, ids) == Unmigrated(t, gs)
  {
    if gs != [] {
      DeleteDropsMigrated(t, gs[..|gs| - 1], ids);
    }
  }

  // ---- The migration -----------------------------------------------------------------------

  /** The group a cluster gets under a name. */
  ghost function GroupOf(cl: Clusters, org: nat, f: seq<Pair>, name: string): NewGroup
    requires (org, f) in cl.users && f in cl.assignments
  {
    NewGroup(org, f, name, KeyOf(name), SortedSet(NatLt, cl.users[(org, f)]), FirstPerProject(cl.assignments[f]))
  }

  ghost predicate FromCluster(cl: Clusters, n: NewGroup) {
    && (n.org, n.mark) in cl.users && n.mark in cl.assignments
    && n == GroupOf(cl, n.org, n.mark, n.name)
  }

  /** Where the third loop stands between two groups. */
  datatype Writing = Writing(t: Tables, existing: set<(nat, string)>, made: seq<NewGroup>)

  ghost predicate Progress(t0: Tables, cl: Clusters, w: Writing) {
    match w
    case Writing(t, existing, made) =>
      && t == AddAll(t0, made)
      && (forall k :: 0 <= k < |made| ==> FromCluster(cl, made[k]))
      && FreshKeys(t0, made)
      && existing == GroupKeys(t0) + MadeKeys(made)
  }

  ghost function MadeKeys(made: seq<NewGroup>): set<(nat, string)> {
    set n | n in made :: (n.org, n.key)
  }

  type Mark = (nat, seq<Pair>)    // organization, fingerprint

  ghost function Marks(made: seq<NewGroup>): (r: seq<Mark>)
    ensures |r| == |made|
  {
    seq(|made|, i requires 0 <= i < |made| => (made[i].org, made[i].mark))
  }

  ghost function MarksOf(org: nat, fs: seq<seq<Pair>>, n: nat): (r: seq<Mark>)
    requires n <= |fs|
    ensures |r| == n
  {
    seq(n, i requires 0 <= i < n => (org, fs[i]))
  }

  lemma MarksOfMore(org: nat, fs: seq<seq<Pair>>, n: nat, before: seq<Mark>)
    requires n < |fs|
    ensures before + MarksOf(org, fs, n + 1) == before + MarksOf(org, fs, n) + [(org, fs[n])]
    ensures before + MarksOf(org, fs, 0) == before
  {
  }

  ghost function OrgMarks(cl: Clusters, org: nat): seq<Mark>
    requires org in cl.prints
  {
    MarksOf(org, cl.prints[org], |cl.prints[org]|)
  }

  /** The clusters of the first `n` organizations, in the order the third loop visits them. */
  ghost function Visited(cl: Clusters, n: nat): seq<Mark>
    requires n <= |cl.orgs| && Nested(cl)
  {
    if n == 0 then []
    else
      assert cl.orgs[n - 1] in cl.orgs;
      Visited(cl, n - 1) + OrgMarks(cl, cl.orgs[n - 1])
  }

  lemma VisitedMore(cl: Clusters, i: nat)
    requires i < |cl.orgs| && Nested(cl) && forall k :: k in cl.users ==> k.1 in cl.assignments
    ensures cl.orgs[i] in cl.prints
    ensures forall f :: f in cl.prints[cl.orgs[i]] ==> (cl.orgs[i], f) in cl.users && f in cl.assignments
    ensures Visited(cl, i + 1) == Visited(cl, i) + OrgMarks(cl, cl.orgs[i])
  {
    assert cl.orgs[i] in cl.orgs;
    forall f | f in cl.prints[cl.orgs[i]] ensures (cl.orgs[i], f) in cl.users && f in cl.assignments {
      assert (cl.orgs[i], f).1 == f;
    }
  }

  lemma {:induction false} VisitedOnce(cl: Clusters, n: nat)
    requires n <= |cl.orgs| && Nested(cl)
    ensures NoDup(Visited(cl, n))
    ensures forall k :: k in Visited(cl, n) <==> k in cl.users && k.0 in cl.orgs[..n]
  {
    if n > 0 {
      VisitedOnce(cl, n - 1);
      var org := cl.orgs[n - 1];
      assert org in cl.orgs && cl.orgs[..n] == cl.orgs[..n - 1] + [org];
      var more := OrgMarks(cl, org);
      forall k ensures k in more <==> k in cl.users && k.0 == org {
        if k in cl.users && k.0 == org {
          var i :| 0 <= i < |cl.prints[org]| && cl.prints[org][i] == k.1;
          assert more[i] == k;
        }
      }
      var before := Visited(cl, n - 1);
      forall i | 0 <= i < |before| ensures before[i] !in more {
        assert before[i] in before;
      }
    }
  }

  lemma MarksAreClusters(cl: Clusters, made: seq<NewGroup>)
    requires Nested(cl) && Marks(made) == Visited(cl, |cl.orgs|)
    ensures DistinctClusters(made)
    ensures forall k :: k in cl.users ==> Covers(made, k.0, k.1)
  {
    VisitedOnce(cl, |cl.orgs|);
    assert cl.orgs[..|cl.orgs|] == cl.orgs;
    forall i, j | 0 <= i < j < |made| ensures (made[i].org, made[i].mark) != (made[j].org, made[j].mark) {
      assert Marks(made)[i] != Marks(made)[j];
    }
    forall k | k in cl.users ensures Covers(made, k.0, k.1) {
      assert (k.0, k.1) in cl.users;
      var i :| 0 <= i < |made| && Marks(made)[i] == k;
    }
  }

  /** The groups of the first `n` organizations are written. */
  ghost predicate WrittenOrgs(t0: Tables, cl: Clusters, w: Writing, n: nat)
    requires n <= |cl.orgs| && Nested(cl)
  {
    match w
    case Writing(_, _, made) => Progress(t0, cl, w) && Marks(made) == Visited(cl, n)
  }

  lemma WritingStarts(t0: Tables, cl: Clusters)
    requires Nested(cl)
    ensures WrittenOrgs(t0, cl, Writing(t0, GroupKeys(t0), []), 0)
  {
    assert MadeKeys([]) == {};
  }

  /** Every cluster is ready to be written. */
  ghost predicate Writable(c: Codec, t: Tables, cl: Clusters) {
    match cl
    case Clusters(_, _, users, assignments, _) =>
      forall k :: k in users ==>
        k.1 in assignments && IsCluster(c, t, k.0, k.1, SortedSet(NatLt, users[k]), FirstPerProject(assignments[k.1]))
  }

  lemma ClustersWritable(c: Codec, t: Tables, keys: seq<Member>, cl: Clusters)
    requires Clustered(c, t, keys, cl) && (forall m :: m in keys <==> Participates(t, m))
    ensures Writable(c, t, cl)
  {
    forall k | k in cl.users
      ensures IsCluster(c, t, k.0, k.1, SortedSet(NatLt, cl.users[k]), FirstPerProject(cl.assignments[k.1]))
    {
      var sorted := SortedSet(NatLt, cl.users[k]);
      SortedSetAscending(NatLt, cl.users[k]);
      assert cl.users[k][0] in sorted;
      forall u: nat ensures u in sorted <==> Participates(t, (k.0, u)) && Print(c, t, (k.0, u)) == k.1 {
        if Participates(t, (k.0, u)) { assert (k.0, u) in keys; }
      }
      FirstPerProjectKeepsAll(cl.assignments[k.1]);
      FingerprintSorts(cl.assignments[k.1]);
    }
  }

  lemma {:induction false} AddAllMore(t: Tables, made: seq<NewGroup>, n: NewGroup)
    ensures AddAll(t, made + [n]) == Add(AddAll(t, made), n)
  {
    assert (made + [n])[..|made|] == made;
  }

  lemma KeysMore(t0: Tables, made: seq<NewGroup>, n: NewGroup)
    requires FreshKeys(t0, made) && (n.org, n.key) !in GroupKeys(t0) + MadeKeys(made)
    ensures FreshKeys(t0, made + [n]) && MadeKeys(made + [n]) == MadeKeys(made) + {(n.org, n.key)}
  {
    forall k | 0 <= k < |made| ensures (made[k].org, made[k].key) != (n.org, n.key) {
      assert (made[k].org, made[k].key) in MadeKeys(made);
    }
    forall m ensures m in made + [n] <==> m in made || m == n {}
  }

  lemma ProgressMore(t0: Tables, cl: Clusters, w: Writing, n: NewGroup)
    requires Progress(t0, cl, w) && FromCluster(cl, n) && (n.org, n.key) !in w.existing
    ensures Progress(t0, cl, Writing(Add(w.t, n), w.existing + {(n.org, n.key)}, w.made + [n]))
    ensures Marks(w.made + [n]) == Marks(w.made) + [(n.org, n.mark)]
  {
    AddAllMore(t0, w.made, n);
    KeysMore(t0, w.made, n);
  }

  // Names.

  ghost function IndicesOf(made: seq<NewGroup>, org: nat): set<nat> {
    set k: nat | k < |made| && made[k].org == org
  }

  /** How many groups the organization has got. */
  ghost function MadeIn(made: seq<NewGroup>, org: nat): nat {
    |IndicesOf(made, org)|
  }

  /** How a group is named after those before it: by its number in its organization, or the least free one from 2 on. */
  ghost function Naming(keys: set<(nat, string)>): (seq<NewGroup>, NewGroup) -> bool {
    (before: seq<NewGroup>, g: NewGroup) =>
      g.name == NameFor(Number(keys + MadeKeys(before), g.org, MadeIn(before, g.org) + 1))
  }

  /** Each group fits those before it. */
  ghost predicate Stepwise(fits: (seq<NewGroup>, NewGroup) -> bool, made: seq<NewGroup>) {
    forall k :: 0 <= k < |made| ==> fits(made[..k], made[k])
  }

  lemma StepwiseMore(fits: (seq<NewGroup>, NewGroup) -> bool, made: seq<NewGroup>, g: NewGroup)
    requires Stepwise(fits, made) && fits(made, g)
    ensures Stepwise(fits, made + [g])
  {
    var more := made + [g];
    forall k | 0 <= k < |more| ensures fits(more[..k], more[k]) {
      assert more[..k] == made[..k];
      assert made[..|made|] == made;
    }
  }

  /** `more` is `made` and one group for the organization. */
  ghost predicate OneMoreFor(org: nat, made: seq<NewGroup>, more: seq<NewGroup>) {
    |more| == |made| + 1 && more[..|made|] == made && more[|made|].org == org
  }

  ghost predicate SameElsewhere(org: nat, made: seq<NewGroup>, more: seq<NewGroup>) {
    forall o :: o != org ==> MadeIn(more, o) == MadeIn(made, o)
  }

  lemma SameElsewhereStill(org: nat, start: seq<NewGroup>, made: seq<NewGroup>, more: seq<NewGroup>)
    requires SameElsewhere(org, start, made) && OneMoreFor(org, made, more)
    ensures SameElsewhere(org, start, more) && MadeIn(more, org) == MadeIn(made, org) + 1
  {
    MadeInNext(org, made, more);
  }

  lemma MadeInNext(org: nat, made: seq<NewGroup>, more: seq<NewGroup>)
    requires OneMoreFor(org, made, more)
    ensures MadeIn(more, org) == MadeIn(made, org) + 1 && SameElsewhere(org, made, more)
  {
    assert forall k :: 0 <= k < |made| ==> more[k] == more[..|made|][k] == made[k];
    assert IndicesOf(more, org) == IndicesOf(made, org) + {|made|};
    forall o | o != org ensures IndicesOf(more, o) == IndicesOf(made, o) {}
  }

  lemma NoneMade(made: seq<NewGroup>, org: nat)
    requires forall j :: 0 <= j < |made| ==> made[j].org != org
    ensures MadeIn(made, org) == 0 && forall key :: (org, key) !in MadeKeys(made)
  {
    assert IndicesOf(made, org) == {};
  }

  lemma NamingHolds(keys: set<(nat, string)>, existing: set<(nat, string)>, before: seq<NewGroup>, g: NewGroup)
    requires existing == keys + MadeKeys(before)
    requires g.name == NameFor(Number(existing, g.org, MadeIn(before, g.org) + 1))
    ensures Naming(keys)(before, g)
  {
  }

  lemma ProgressKeys(t0: Tables, cl: Clusters, w: Writing)
    requires Progress(t0, cl, w)
    ensures w.existing == GroupKeys(t0) + MadeKeys(w.made)
  {
  }

  /** `w'` has made one more group than `w`, for the organization and with the name. */
  ghost predicate OneMoreNamed(w: Writing, w': Writing, org: nat, name: string) {
    OneMoreFor(org, w.made, w'.made) && w'.made[|w.made|].name == name
  }

  lemma NameAsSearched(t0: Tables, cl: Clusters, w: Writing, g: NewGroup)
    requires Progress(t0, cl, w) && g.name == NameFor(Number(w.existing, g.org, MadeIn(w.made, g.org) + 1))
    ensures Naming(GroupKeys(t0))(w.made, g)
  {
    ProgressKeys(t0, cl, w);
    NamingHolds(GroupKeys(t0), w.existing, w.made, g);
  }

  lemma StepwiseNext(fits: (seq<NewGroup>, NewGroup) -> bool, org: nat, made: seq<NewGroup>, more: seq<NewGroup>)
    requires Stepwise(fits, made) && OneMoreFor(org, made, more) && fits(made, more[|made|])
    ensures Stepwise(fits, more)
  {
    StepwiseMore(fits, made, more[|made|]);
    assert more == made + [more[|made|]];
  }

  lemma GroupStep(t0: Tables, cl: Clusters, fits: (seq<NewGroup>, NewGroup) -> bool, org: nat, index: nat,
                  start: seq<NewGroup>, w: Writing, w': Writing)
    requires fits == Naming(GroupKeys(t0)) && Progress(t0, cl, w) && Stepwise(fits, w.made) && SameElsewhere(org, start, w.made)
    requires index == MadeIn(w.made, org) + 1 && OneMoreNamed(w, w', org, NameFor(Number(w.existing, org, index)))
    ensures Stepwise(fits, w'.made) && SameElsewhere(org, start, w'.made) && MadeIn(w'.made, org) == index
  {
    NameAsSearched(t0, cl, w, w'.made[|w.made|]);
    StepwiseNext(fits, org, w.made, w'.made);
    SameElsewhereStill(org, start, w.made, w'.made);
  }

  lemma NameForIs(n: nat)
    ensures NameFor(n) == if n == 1 then "Migrated access" else "Migrated access " + Decimal(n)
  {
    assert STEM + " " == "Migrated access ";
  }

  lemma NumberMeans(existing: set<(nat, string)>, org: nat, preferred: nat)
    requires preferred >= 1
    ensures var name := NameFor(Number(existing, org, preferred));
      && (name == "Migrated access" || exists n: nat :: n >= 2 && name == "Migrated access " + Decimal(n))
      && (preferred == 1 && (org, KEY_STEM) !in existing ==> name == "Migrated access")
  {
    SearchFinds(existing, org, 2);
    NameForKey(1);
    NameForIs(Number(existing, org, preferred));
  }

  /** The first of its organization in the list, where the plain name is free. */
  ghost predicate FirstWithFreeName(t: Tables, made: seq<NewGroup>, k: nat)
    requires k < |made|
  {
    (forall j :: 0 <= j < k ==> made[j].org != made[k].org) && (made[k].org, "migrated access") !in GroupKeys(t)
  }

  /**
   Every new group is called "Migrated access", or that with a number from 2 on; the first of an organization
   has no number, unless the name is taken there.
   */
  lemma NamesAre(t: Tables, made: seq<NewGroup>, k: nat)
    requires k < |made| && Stepwise(Naming(GroupKeys(t)), made)
    ensures made[k].name == "Migrated access" || exists n: nat :: n >= 2 && made[k].name == "Migrated access " + Decimal(n)
    ensures FirstWithFreeName(t, made, k) ==> made[k].name == "Migrated access"
  {
    var before, org := made[..k], made[k].org;
    assert Naming(GroupKeys(t))(before, made[k]);
    NumberMeans(GroupKeys(t) + MadeKeys(before), org, MadeIn(before, org) + 1);
    if FirstWithFreeName(t, made, k) {
      NoneMade(before, org);
    }
  }

  lemma FromClusterIsNewGroup(c: Codec, t0: Tables, cl: Clusters, n: NewGroup)
    requires Writable(c, t0, cl) && FromCluster(cl, n)
    ensures IsNewGroup(c, t0, n)
  {
  }

  class Database {
    var t: Tables

    constructor (t: Tables)
      ensures this.t == t
    {
      this.t := t;
    }

    method InsertMembers(group: nat, users: seq<nat>)
      modifies this
      ensures t == old(t).(groupMembers := old(t).groupMembers + MemberRows(group, users))
    {
      for i := 0 to |users|
        invariant t == old(t).(groupMembers := old(t).groupMembers + MemberRows(group, users[..i]))
      {
        t := t.(groupMembers := t.groupMembers + [(group, users[i])]);
        assert MemberRows(group, users[..i + 1]) == MemberRows(group, users[..i]) + [(group, users[i])];
      }
      assert users[..|users|] == users;
    }

    method InsertGrants(group: nat, assignment: seq<Pair>)
      modifies this
      ensures t == old(t).(groupGrants := old(t).groupGrants + GrantRows(group, FirstPerProject(assignment)))
    {
      var seen: set<nat> := {};
      for i := 0 to |assignment|
        invariant seen == Projects(assignment[..i])
        invariant t == old(t).(groupGrants := old(t).groupGrants + GrantRows(group, FirstPerProject(assignment[..i])))
      {
        var (project, perms) := assignment[i];
        OneMoreAssignment(group, assignment, i);
        if project !in seen {
          seen := seen + {project};
          t := t.(groupGrants := t.groupGrants + [GroupGrant(group, project, perms)]);
        }
      }
      assert assignment[..|assignment|] == assignment;
    }

    method CreateGroup(org: nat, ghost f: seq<Pair>, name: string, key: string, userIds: seq<nat>, assignment: seq<Pair>)
      modifies this
      ensures t == Add(old(t), NewGroup(org, f, name, key, SortedSet(NatLt, userIds), FirstPerProject(assignment)))
    {
      var id := t.nextGroup;
      t := t.(groups := t.groups + [Group(id, org, name, key)], nextGroup := id + 1);
      InsertMembers(id, SortedSet(NatLt, userIds));
      InsertGrants(id, assignment);
    }

    ghost predicate At(w: Writing, existing: set<(nat, string)>)
      reads this
    {
      t == w.t && existing == w.existing
    }

    method WriteGroup(ghost t0: Tables, cl: Clusters, org: nat, f: seq<Pair>,
                      index: nat, existing: set<(nat, string)>, ghost w: Writing)
      returns (existing': set<(nat, string)>, ghost w': Writing)
      requires index >= 1 && (org, f) in cl.users && f in cl.assignments
      requires Progress(t0, cl, w) && At(w, existing)
      modifies this
      ensures Progress(t0, cl, w') && At(w', existing')
      ensures Marks(w'.made) == Marks(w.made) + [(org, f)]
      ensures OneMoreNamed(w, w', org, NameFor(Number(w.existing, org, index)))
    {
      var name, key := FreshName(existing, org, index);
      existing' := existing + {(org, key)};
      ghost var n := GroupOf(cl, org, f, name);
      w' := Writing(Add(w.t, n), w.existing + {(n.org, n.key)}, w.made + [n]);
      ProgressMore(t0, cl, w, n);
      CreateGroup(org, f, name, key, cl.users[(org, f)], cl.assignments[f]);
      assert t == w'.t && existing' == w'.existing;
    }

    method WriteOrganization(ghost t0: Tables, ghost fits: (seq<NewGroup>, NewGroup) -> bool, cl: Clusters, org: nat,
                             existing: set<(nat, string)>, ghost w: Writing)
      returns (existing': set<(nat, string)>, ghost w': Writing)
      requires fits == Naming(GroupKeys(t0)) && org in cl.prints && (forall f :: f in cl.prints[org] ==> (org, f) in cl.users && f in cl.assignments)
      requires Progress(t0, cl, w) && Stepwise(fits, w.made) && MadeIn(w.made, org) == 0 && At(w, existing)
      modifies this
      ensures Progress(t0, cl, w') && Stepwise(fits, w'.made) && At(w', existing')
      ensures Marks(w'.made) == Marks(w.made) + OrgMarks(cl, org)
      ensures SameElsewhere(org, w.made, w'.made)
    {
      existing', w' := existing, w;
      var fs, index := cl.prints[org], 0;
      for j := 0 to |fs|
        invariant index == j == MadeIn(w'.made, org) && Progress(t0, cl, w') && Stepwise(fits, w'.made) && At(w', existing')
        invariant SameElsewhere(org, w.made, w'.made)
        invariant Marks(w'.made) == Marks(w.made) + MarksOf(org, fs, j)
      {
        MarksOfMore(org, fs, j, Marks(w.made));
        index := index + 1;
        ghost var before := w';
        existing', w' := WriteGroup(t0, cl, org, fs[j], index, existing', w');
        GroupStep(t0, cl, fits, org, index, w.made, before, w');
      }
    }

    method WriteGroups(ghost t0: Tables, ghost fits: (seq<NewGroup>, NewGroup) -> bool, cl: Clusters) returns (ghost w: Writing)
      requires fits == Naming(GroupKeys(t0)) && t == t0 && Nested(cl) && (forall k :: k in cl.users ==> k.1 in cl.assignments)
      modifies this
      ensures Progress(t0, cl, w) && Stepwise(fits, w.made) && t == w.t
      ensures Marks(w.made) == Visited(cl, |cl.orgs|)
    {
      var existing := GroupKeys(t);
      w := Writing(t, existing, []);
      WritingStarts(t0, cl);
      for i := 0 to |cl.orgs|
        invariant At(w, existing) && WrittenOrgs(t0, cl, w, i) && Stepwise(fits, w.made)
        invariant forall j :: i <= j < |cl.orgs| ==> MadeIn(w.made, cl.orgs[j]) == 0
      {
        VisitedMore(cl, i);
        existing, w := WriteOrganization(t0, fits, cl, cl.orgs[i], existing, w);
      }
    }

    method BackfillMemberGrants(c: Codec) returns (ghost made: seq<NewGroup>)
      requires Valid(t)
      modifies this
      ensures Migrated(Run(c, old(t), t, made)) && Stepwise(Naming(GroupKeys(old(t))), made)
    {
      ghost var t0 := t;
      var keys, rows := CollectRows(c, t);
      var cl := ClusterUsers(c, t, keys, rows);
      ClustersWritable(c, t0, keys, cl);
      ghost var w := WriteGroups(t0, Naming(GroupKeys(t0)), cl);
      made := w.made;
      WritingMigrates(c, t0, keys, cl, w);
      WithoutNothing(t.grants);
      if cl.deleteIds != [] {
        t := t.(grants := Without(t.grants, cl.deleteIds));
      }
    }
  }

  /** The groups written and the collected rows deleted: that is the migration. */
  lemma WritingMigrates(c: Codec, t0: Tables, keys: seq<Member>, cl: Clusters, w: Writing)
    requires Valid(t0) && Clustered(c, t0, keys, cl) && Writable(c, t0, cl) && forall m :: m in keys <==> Participates(t0, m)
    requires Progress(t0, cl, w) && Marks(w.made) == Visited(cl, |cl.orgs|)
    ensures Migrated(Run(c, t0, w.t.(grants := Without(w.t.grants, cl.deleteIds)), w.made))
  {
    forall k | 0 <= k < |w.made| ensures IsNewGroup(c, t0, w.made[k]) {
      FromClusterIsNewGroup(c, t0, cl, w.made[k]);
    }
    MarksAreClusters(cl, w.made);
    AddAllFrame(t0, w.made);
    forall g | g in t0.grants ensures g.id in cl.deleteIds <==> Owner(t0, g).Some? {
      DeletedExactly(c, t0, keys, cl.deleteIds, g);
    }
    DeleteDropsMigrated(t0, t0.grants, cl.deleteIds);
    forall m | Participates(t0, m) ensures Covers(w.made, m.0, Print(c, t0, m)) {
      assert m in keys;
    }
  }

  // ---- What the migration guarantees -------------------------------------------------------

  lemma {:induction false} AddAllFrame(t: Tables, made: seq<NewGroup>)
    ensures var r := AddAll(t, made); r.orgOf == t.orgOf && r.roles == t.roles && r.grants == t.grants && r.nextGroup == t.nextGroup + |made|
  {
    if made != [] {
      AddAllFrame(t, made[..|made| - 1]);
    }
  }

  lemma {:induction false} AddAllGroups(t: Tables, made: seq<NewGroup>)
    ensures var r := AddAll(t, made);
      && |r.groups| == |t.groups| + |made| && t.groups <= r.groups
      && (forall k :: |t.groups| <= k < |r.groups| ==>
            var i := k - |t.groups|;
            r.groups[k] == Group(t.nextGroup + i, made[i].org, made[i].name, made[i].key))
  {
    if made != [] {
      AddAllGroups(t, made[..|made| - 1]);
      AddAllFrame(t, made[..|made| - 1]);
    }
  }

  lemma {:induction false} AddAllMembers(t: Tables, made: seq<NewGroup>, group: nat, user: nat)
    ensures (group, user) in AddAll(t, made).groupMembers <==>
            || (group, user) in t.groupMembers
            || (t.nextGroup <= group < t.nextGroup + |made| && user in made[group - t.nextGroup].users)
  {
    if made != [] {
      var rest, n := made[..|made| - 1], made[|made| - 1];
      AddAllMembers(t, rest, group, user);
      AddAllFrame(t, rest);
      var rows := MemberRows(t.nextGroup + |rest|, n.users);
      assert (group, user) in rows <==> group == t.nextGroup + |rest| && user in n.users by {
        if group == t.nextGroup + |rest| && user in n.users {
          var i :| 0 <= i < |n.users| && n.users[i] == user;
          assert rows[i] == (group, user);
        }
      }
    }
  }

  lemma {:induction false} AddAllGrants(t: Tables, made: seq<NewGroup>, gg: GroupGrant)
    ensures gg in AddAll(t, made).groupGrants <==>
            || gg in t.groupGrants
            || (t.nextGroup <= gg.group < t.nextGroup + |made| && (gg.project, gg.perms) in made[gg.group - t.nextGroup].grants)
  {
    if made != [] {
      var rest, n := made[..|made| - 1], made[|made| - 1];
      AddAllGrants(t, rest, gg);
      AddAllFrame(t, rest);
      var rows := GrantRows(t.nextGroup + |rest|, n.grants);
      assert gg in rows <==> gg.group == t.nextGroup + |rest| && (gg.project, gg.perms) in n.grants by {
        if gg.group == t.nextGroup + |rest| && (gg.project, gg.perms) in n.grants {
          var i :| 0 <= i < |n.grants| && n.grants[i] == (gg.project, gg.perms);
          assert rows[i] == gg;
        }
      }
    }
  }

  ghost predicate GroupIn(t: Tables, org: nat, group: nat) {
    exists gr :: gr in t.groups && gr.id == group && gr.org == org
  }

  lemma OldGroupsHaveOldNumbers(t: Tables, org: nat, group: nat) returns (k: nat)
    requires Valid(t) && GroupIn(t, org, group)
    ensures group < t.nextGroup && k < |t.groups| && t.groups[k].id == group && t.groups[k].org == org
  {
    var gr :| gr in t.groups && gr.id == group && gr.org == org;
    k :| 0 <= k < |t.groups| && t.groups[k] == gr;
    assert gr.id in GroupIds(t);
  }

  lemma GroupsStay(t: Tables, made: seq<NewGroup>, org: nat, group: nat)
    requires Valid(t) && GroupIn(t, org, group)
    ensures GroupIn(AddAll(t, made), org, group)
  {
    AddAllGroups(t, made);
    var k := OldGroupsHaveOldNumbers(t, org, group);
    assert AddAll(t, made).groups[k] == t.groups[k];
  }

  lemma FindGroup(t: Tables, org: nat, group: nat) returns (k: nat)
    requires GroupIn(t, org, group)
    ensures k < |t.groups| && t.groups[k].id == group && t.groups[k].org == org
  {
    var gr :| gr in t.groups && gr.id == group && gr.org == org;
    k :| 0 <= k < |t.groups| && t.groups[k] == gr;
  }

  lemma GroupAt(t: Tables, made: seq<NewGroup>, k: nat)
    requires k < |AddAll(t, made).groups|
    ensures if k < |t.groups| then AddAll(t, made).groups[k] == t.groups[k]
      else var i := k - |t.groups|;
        i < |made| && AddAll(t, made).groups[k] == Group(t.nextGroup + i, made[i].org, made[i].name, made[i].key)
  {
    AddAllGroups(t, made);
  }

  lemma GroupsAreOldOrMade(t: Tables, made: seq<NewGroup>, org: nat, group: nat)
    requires GroupIn(AddAll(t, made), org, group)
    ensures GroupIn(t, org, group) || (t.nextGroup <= group < t.nextGroup + |made| && made[group - t.nextGroup].org == org)
  {
    var k := FindGroup(AddAll(t, made), org, group);
    GroupAt(t, made, k);
    assert k < |t.groups| ==> t.groups[k] in t.groups;
  }

  /** Old numbers keep their organization and are never reused; a new number has the organization it was made for. */
  lemma GroupOrganizations(t: Tables, made: seq<NewGroup>, org: nat, group: nat)
    requires Valid(t)
    ensures GroupIn(AddAll(t, made), org, group) <==>
            || GroupIn(t, org, group)
            || (t.nextGroup <= group < t.nextGroup + |made| && made[group - t.nextGroup].org == org)
    ensures GroupIn(t, org, group) ==> group < t.nextGroup
  {
    if GroupIn(AddAll(t, made), org, group) {
      GroupsAreOldOrMade(t, made, org, group);
    }
    if GroupIn(t, org, group) {
      GroupsStay(t, made, org, group);
      var k := OldGroupsHaveOldNumbers(t, org, group);
    }
    if t.nextGroup <= group < t.nextGroup + |made| && made[group - t.nextGroup].org == org {
      AddAllGroups(t, made);
      var gr := AddAll(t, made).groups[|t.groups| + (group - t.nextGroup)];
      assert gr in AddAll(t, made).groups && gr.id == group;
    }
  }

  lemma MembersHaveOldNumbers(t: Tables, group: nat, user: nat)
    requires Valid(t) && (group, user) in t.groupMembers
    ensures group < t.nextGroup
  {
    var j :| 0 <= j < |t.groupMembers| && t.groupMembers[j] == (group, user);
    assert t.groupMembers[j].0 in GroupIds(t);
  }

  lemma GrantsHaveOldNumbers(t: Tables, gg: GroupGrant)
    requires Valid(t) && gg in t.groupGrants
    ensures gg.group < t.nextGroup
  {
    var j :| 0 <= j < |t.groupGrants| && t.groupGrants[j] == gg;
    assert t.groupGrants[j].group in GroupIds(t);
  }

  /** Old groups keep their members; a new group has the users of its cluster. */
  lemma Memberships(t: Tables, made: seq<NewGroup>, org: nat, user: nat, group: nat)
    requires Valid(t)
    ensures group < t.nextGroup ==> (InGroup(AddAll(t, made), org, user, group) <==> InGroup(t, org, user, group))
    ensures t.nextGroup <= group < t.nextGroup + |made| ==>
              var n := made[group - t.nextGroup];
              (InGroup(AddAll(t, made), org, user, group) <==> n.org == org && user in n.users)
  {
    AddAllMembers(t, made, group, user);
    GroupOrganizations(t, made, org, group);
    if (group, user) in t.groupMembers { MembersHaveOldNumbers(t, group, user); }
    assert InGroup(AddAll(t, made), org, user, group) <==>
      (group, user) in AddAll(t, made).groupMembers && GroupIn(AddAll(t, made), org, group);
    assert InGroup(t, org, user, group) <==> (group, user) in t.groupMembers && GroupIn(t, org, group);
  }

  lemma SameGroups(t: Tables, gs: seq<Grant>, org: nat, user: nat, group: nat)
    ensures InGroup(t.(grants := gs), org, user, group) <==> InGroup(t, org, user, group)
  {
  }

  /** A group of a lower number is an old group. */
  lemma OldGroupsStay(r: Run, org: nat, user: nat, group: nat)
    requires Migrated(r) && group < r.t.nextGroup
    ensures InGroup(r.t', org, user, group) <==> InGroup(r.t, org, user, group)
  {
    Memberships(r.t, r.made, org, user, group);
    SameGroups(AddAll(r.t, r.made), r.t'.grants, org, user, group);
  }

  predicate Created(r: Run, group: nat) {
    r.t.nextGroup <= group < r.t.nextGroup + |r.made|
  }

  function Creation(r: Run, group: nat): NewGroup
    requires Created(r, group)
  {
    r.made[group - r.t.nextGroup]
  }

  lemma UsersOfNew(c: Codec, t: Tables, n: NewGroup, user: nat)
    requires IsNewGroup(c, t, n)
    ensures user in n.users <==> Participates(t, (n.org, user)) && Print(c, t, (n.org, user)) == n.mark
  {
  }

  /** Membership of a created group is: participating in its organization with its grant map. */
  lemma NewGroupMembers(r: Run, org: nat, user: nat, group: nat)
    requires Migrated(r) && Created(r, group)
    ensures InGroup(r.t', org, user, group) <==>
            && Creation(r, group).org == org && Participates(r.t, (org, user))
            && Print(r.c, r.t, (org, user)) == Creation(r, group).mark
  {
    MembersAfter(r, org, user, group);
    CreationIsNew(r, group);
    UsersOfNew(r.c, r.t, Creation(r, group), user);
  }

  lemma MembersAfter(r: Run, org: nat, user: nat, group: nat)
    requires Migrated(r) && Created(r, group)
    ensures InGroup(r.t', org, user, group) <==> Creation(r, group).org == org && user in Creation(r, group).users
  {
    Memberships(r.t, r.made, org, user, group);
    SameGroups(AddAll(r.t, r.made), r.t'.grants, org, user, group);
  }

  /** A grant row of a created group stands for an entry of its fingerprint. */
  lemma NewGroupGrants(r: Run, group: nat, x: Pair)
    requires Migrated(r) && Created(r, group)
    ensures GroupGrant(group, x.0, x.1) in r.t'.groupGrants <==> x in Creation(r, group).mark
  {
    var gg := GroupGrant(group, x.0, x.1);
    AddAllGrants(r.t, r.made, gg);
    if gg in r.t.groupGrants { GrantsHaveOldNumbers(r.t, gg); }
    CreationIsNew(r, group);
  }

  lemma CreationIsNew(r: Run, group: nat)
    requires Migrated(r) && Created(r, group)
    ensures IsNewGroup(r.c, r.t, Creation(r, group))
  {
  }

  lemma FindCover(made: seq<NewGroup>, org: nat, f: seq<Pair>) returns (i: nat)
    requires Covers(made, org, f)
    ensures i < |made| && made[i].org == org && made[i].mark == f
  {
    i :| 0 <= i < |made| && made[i].org == org && made[i].mark == f;
  }

  lemma IsCovered(r: Run, m: Member)
    requires Migrated(r) && Participates(r.t, m)
    ensures Covers(r.made, m.0, Print(r.c, r.t, m))
  {
  }

  lemma ParticipantHasGroup(r: Run, m: Member) returns (group: nat)
    requires Migrated(r) && Participates(r.t, m)
    ensures Created(r, group) && Creation(r, group).org == m.0 && Creation(r, group).mark == Print(r.c, r.t, m)
  {
    IsCovered(r, m);
    var i := FindCover(r.made, m.0, Print(r.c, r.t, m));
    group := r.t.nextGroup + i;
  }

  lemma IsValid(r: Run)
    requires Migrated(r)
    ensures Valid(r.t) && r.t'.orgOf == r.t.orgOf && r.t'.roles == r.t.roles && r.t'.grants == Unmigrated(r.t, r.t.grants)
  {
    AddAllFrame(r.t, r.made);
  }

  // Access is preserved.

  /** A grant row gives access afterwards if it gave it before or if it stands for a direct grant. */
  lemma GrantRowGives(r: Run, org: nat, user: nat, project: nat, gg: GroupGrant, s: string)
    requires Migrated(r)
    ensures Gives(r.t', org, user, project, gg, s) <==>
            || Gives(r.t, org, user, project, gg, s)
            || (&& Created(r, gg.group) && Creation(r, gg.group).org == org && Participates(r.t, (org, user))
                && Print(r.c, r.t, (org, user)) == Creation(r, gg.group).mark
                && gg.project == project && (project, gg.perms) in Creation(r, gg.group).mark
                && s in gg.perms && project in r.t.orgOf && r.t.orgOf[project] == Some(org))
  {
    IsValid(r);
    AddAllGrants(r.t, r.made, gg);
    if gg in r.t.groupGrants { GrantsHaveOldNumbers(r.t, gg); }
    if gg.group < r.t.nextGroup {
      OldGroupsStay(r, org, user, gg.group);
    } else if Created(r, gg.group) {
      NewGroupMembers(r, org, user, gg.group);
      NewGroupGrants(r, gg.group, (gg.project, gg.perms));
    }
  }

  /**
   Access is preserved: for every user, organization and project, the union of the grants held through
   groups afterwards is what the groups gave before plus the canonicalised direct grant. In particular
   nobody gains anything on a project without a row.
   */
  lemma AccessPreserved(r: Run, org: nat, user: nat, project: nat)
    requires Migrated(r)
    ensures GroupAccess(r.t', org, user, project)
         == GroupAccess(r.t, org, user, project) + DirectAccess(r.c, r.t, org, user, project)
  {
    forall s ensures s in GroupAccess(r.t', org, user, project)
                 <==> s in GroupAccess(r.t, org, user, project) || s in DirectAccess(r.c, r.t, org, user, project)
    {
      if s in GroupAccess(r.t', org, user, project) {
        AccessComesFromBefore(r, org, user, project, s);
      }
      if s in GroupAccess(r.t, org, user, project) {
        var gg :| Gives(r.t, org, user, project, gg, s);
        GrantRowGives(r, org, user, project, gg, s);
      }
      if s in DirectAccess(r.c, r.t, org, user, project) {
        DirectAccessMoves(r, org, user, project, s);
      }
    }
  }

  lemma AccessComesFromBefore(r: Run, org: nat, user: nat, project: nat, s: string)
    requires Migrated(r) && s in GroupAccess(r.t', org, user, project)
    ensures s in GroupAccess(r.t, org, user, project) || s in DirectAccess(r.c, r.t, org, user, project)
  {
    var gg :| Gives(r.t', org, user, project, gg, s);
    GrantRowGives(r, org, user, project, gg, s);
    IsValid(r);
    if !Gives(r.t, org, user, project, gg, s) {
      PrintMeaning(r.c, r.t, (org, user));
      DirectEntry(r.c, r.t, org, user, (project, gg.perms), s);
    }
  }

  lemma DirectEntry(c: Codec, t: Tables, org: nat, user: nat, x: Pair, s: string)
    requires x in GrantMap(c, t, (org, user)) && s in x.1
    ensures s in DirectAccess(c, t, org, user, x.0)
  {
  }

  lemma DirectAccessMoves(r: Run, org: nat, user: nat, project: nat, s: string)
    requires Migrated(r) && s in DirectAccess(r.c, r.t, org, user, project)
    ensures s in GroupAccess(r.t', org, user, project)
  {
    IsValid(r);
    var m := (org, user);
    var g :| g in r.t.grants && g.project == project && Owner(r.t, g) == Some(m) && s in Canonical(r.c, g);
    var group := ParticipantHasGroup(r, m);
    PrintMeaning(r.c, r.t, m);
    assert (project, Canonical(r.c, g)) in GrantMap(r.c, r.t, m);
    GrantRowGives(r, org, user, project, GroupGrant(group, project, Canonical(r.c, g)), s);
  }

  /** Rows that belong to no member-role user stay, in order; no member keeps a direct row. */
  lemma {:induction false} OtherRowsUntouched(t: Tables, gs: seq<Grant>)
    ensures forall g :: g in Unmigrated(t, gs) <==> g in gs && Owner(t, g).None?
    ensures (forall g :: g in gs ==> Owner(t, g).None?) ==> Unmigrated(t, gs) == gs
  {
    if gs != [] {
      OtherRowsUntouched(t, gs[..|gs| - 1]);
      assert gs == gs[..|gs| - 1] + [gs[|gs| - 1]];
    }
  }

  // What a row is worth, and to whom.

  ghost function SetOf(perms: Perms): set<string> {
    set s | s in perms
  }

  lemma RowBecomesAccess(r: Run, g: Grant, org: nat)
    requires Migrated(r) && g in r.t.grants && Owner(r.t, g) == Some((org, g.user))
    ensures g !in r.t'.grants
    ensures GroupAccess(r.t', org, g.user, g.project)
         == GroupAccess(r.t, org, g.user, g.project) + SetOf(Canonical(r.c, g))
  {
    IsValid(r);
    OtherRowsUntouched(r.t, r.t.grants);
    AccessPreserved(r, org, g.user, g.project);
    OneDirectRow(r.c, r.t, g, org);
  }

  /** Of the list itself, of what the text parses to, and of the empty list otherwise. */
  lemma CanonicalMeans(c: Codec, g: Grant)
    ensures forall items :: g.raw == Items(items) ==> Canonical(c, g) == c.migrate(items)
    ensures forall text, parsed :: g.raw == Json(text) && c.loads(text) == Some(parsed) ==> Canonical(c, g) == c.migrate(parsed)
    ensures forall text :: g.raw == Json(text) && c.loads(text) == None ==> Canonical(c, g) == c.migrate([])
    ensures g.raw == Null ==> Canonical(c, g) == c.migrate([])
  {
  }

  /**
   A row of a user whose role is "member" in the project's organization is deleted, and its rewritten list is
   what the user's groups give from then on in addition: of the list itself if the driver decoded it, of the
   parsed list if it is text that holds one, and of the empty list otherwise.
   */
  lemma MemberRowBecomesAccess(r: Run, g: Grant, org: nat)
    requires Migrated(r) && g in r.t.grants
    requires g.project in r.t.orgOf && r.t.orgOf[g.project] == Some(org)
    requires (org, g.user) in r.t.roles && r.t.roles[(org, g.user)] == "member"
    ensures g !in r.t'.grants
    ensures var before, after := GroupAccess(r.t, org, g.user, g.project), GroupAccess(r.t', org, g.user, g.project);
      && (forall items :: g.raw == Items(items) ==> after == before + SetOf(r.c.migrate(items)))
      && (forall text, parsed :: g.raw == Json(text) && r.c.loads(text) == Some(parsed) ==>
            after == before + SetOf(r.c.migrate(parsed)))
      && (forall text :: g.raw == Json(text) && r.c.loads(text) == None ==> after == before + SetOf(r.c.migrate([])))
      && (g.raw == Null ==> after == before + SetOf(r.c.migrate([])))
  {
    RowBecomesAccess(r, g, org);
    CanonicalMeans(r.c, g);
  }

  /** With one row per project and user, that row is all the user holds there. */
  lemma OneDirectRow(c: Codec, t: Tables, g: Grant, org: nat)
    requires Valid(t) && g in t.grants && Owner(t, g) == Some((org, g.user))
    ensures DirectAccess(c, t, org, g.user, g.project) == SetOf(Canonical(c, g))
  {
    forall h | h in t.grants && h.project == g.project && Owner(t, h) == Some((org, g.user)) ensures h == g {
      OneRowEach(t, g, h);
    }
  }

  /** Rows of anybody else stay, and nobody without a migrated row on the project gains or loses anything there. */
  lemma OtherRolesKeepRows(r: Run, g: Grant)
    requires Migrated(r) && g in r.t.grants
    requires forall org: nat :: g.project in r.t.orgOf && r.t.orgOf[g.project] == Some(org) && (org, g.user) in r.t.roles
               ==> r.t.roles[(org, g.user)] != "member"
    ensures g in r.t'.grants
    ensures forall org: nat :: GroupAccess(r.t', org, g.user, g.project) == GroupAccess(r.t, org, g.user, g.project)
  {
    IsValid(r);
    OtherRowsUntouched(r.t, r.t.grants);
    assert Owner(r.t, g) == None;
    forall org: nat ensures GroupAccess(r.t', org, g.user, g.project) == GroupAccess(r.t, org, g.user, g.project) {
      NothingDirect(r, org, g);
    }
  }

  lemma NothingDirect(r: Run, org: nat, g: Grant)
    requires Migrated(r) && g in r.t.grants && Owner(r.t, g) == None
    ensures GroupAccess(r.t', org, g.user, g.project) == GroupAccess(r.t, org, g.user, g.project)
  {
    AccessPreserved(r, org, g.user, g.project);
    forall h | h in r.t.grants && h.project == g.project && h.user == g.user ensures h == g {
      OneRowEach(r.t, g, h);
    }
  }

  lemma OneRowEach(t: Tables, g: Grant, h: Grant)
    requires Valid(t) && g in t.grants && h in t.grants && (g.project, g.user) == (h.project, h.user)
    ensures g == h
  {
    var i :| 0 <= i < |t.grants| && t.grants[i] == g;
    var j :| 0 <= j < |t.grants| && t.grants[j] == h;
  }

  /** Without a row on the project access there stays as it was. */
  lemma NoRowNoChange(r: Run, org: nat, user: nat, project: nat)
    requires Migrated(r) && forall g :: g in r.t.grants ==> g.user != user || g.project != project
    ensures GroupAccess(r.t', org, user, project) == GroupAccess(r.t, org, user, project)
  {
    AccessPreserved(r, org, user, project);
  }

  // Clustering is exact.

  ghost predicate ShareNewGroup(r: Run, org: nat, u: nat, v: nat) {
    exists group :: Created(r, group) && InGroup(r.t', org, u, group) && InGroup(r.t', org, v, group)
  }

  /** Two members of an organization share a created group exactly when their grant maps are equal. */
  lemma ClusteringIsExact(r: Run, org: nat, u: nat, v: nat)
    requires Migrated(r) && Participates(r.t, (org, u)) && Participates(r.t, (org, v))
    ensures ShareNewGroup(r, org, u, v) <==> GrantMap(r.c, r.t, (org, u)) == GrantMap(r.c, r.t, (org, v))
  {
    IsValid(r);
    PrintsAgreeExactly(r.c, r.t, (org, u), (org, v));
    if ShareNewGroup(r, org, u, v) {
      var group :| Created(r, group) && InGroup(r.t', org, u, group) && InGroup(r.t', org, v, group);
      NewGroupMembers(r, org, u, group);
      NewGroupMembers(r, org, v, group);
    }
    var mine := ParticipantHasGroup(r, (org, u));
    NewGroupMembers(r, org, u, mine);
    NewGroupMembers(r, org, v, mine);
  }

  /** The grants of a created group are the grant map of each of its members: no overwrite loses any. */
  lemma GroupGrantsAreTheMap(r: Run, org: nat, user: nat, group: nat, x: Pair)
    requires Migrated(r) && Created(r, group) && InGroup(r.t', org, user, group)
    ensures GroupGrant(group, x.0, x.1) in r.t'.groupGrants <==> x in GrantMap(r.c, r.t, (org, user))
  {
    IsValid(r);
    NewGroupMembers(r, org, user, group);
    NewGroupGrants(r, group, x);
    PrintMeaning(r.c, r.t, (org, user));
  }

  ghost function NewGroupsOf(r: Run, org: nat): set<nat> {
    set gr | gr in r.t'.groups && gr.org == org && gr.id >= r.t.nextGroup :: gr.id
  }

  ghost function GrantMapsOf(c: Codec, t: Tables, org: nat): set<set<Pair>> {
    set g | g in t.grants && Owner(t, g).Some? && Owner(t, g).value.0 == org :: GrantMap(c, t, Owner(t, g).value)
  }

  /** An organization gets exactly as many groups as its members had distinct grant maps. */
  lemma GroupCount(r: Run, org: nat)
    requires Migrated(r)
    ensures |NewGroupsOf(r, org)| == |GrantMapsOf(r.c, r.t, org)|
  {
    var f := MapOfGroup(r, org);
    MapsOfGroupsAreThose(r, org);
    MapOfGroupInjective(r, org);
    InjectiveMapSize(f);
  }

  /** The groups made for an organization. */
  ghost function MadeFor(r: Run, org: nat): set<nat> {
    set id: nat | r.t.nextGroup <= id < r.t.nextGroup + |r.made| && Creation(r, id).org == org
  }

  /** The grant map each created group of an organization stands for. */
  ghost function MapOfGroup(r: Run, org: nat): map<nat, set<Pair>> {
    map id | id in MadeFor(r, org) :: Elements(Creation(r, id).mark)
  }

  lemma MapsOfGroupsAreThose(r: Run, org: nat)
    requires Migrated(r)
    ensures MapOfGroup(r, org).Keys == NewGroupsOf(r, org) && MapOfGroup(r, org).Values == GrantMapsOf(r.c, r.t, org)
  {
    var f := MapOfGroup(r, org);
    forall id ensures id in f.Keys <==> id in NewGroupsOf(r, org) {
      NewGroupIds(r, org, id);
    }
    forall id | id in f ensures f[id] in GrantMapsOf(r.c, r.t, org) {
      SomeMemberHolds(r, org, id);
    }
    forall m | m in GrantMapsOf(r.c, r.t, org) ensures m in f.Values {
      var group := GroupFor(r, org, m);
      assert group in f && f[group] == m;
    }
  }

  lemma MapOfGroupInjective(r: Run, org: nat)
    requires Migrated(r)
    ensures var f := MapOfGroup(r, org); forall a, b :: a in f && b in f && f[a] == f[b] ==> a == b
  {
    var f := MapOfGroup(r, org);
    forall a, b | a in f && b in f && f[a] == f[b] ensures a == b {
      SameMarkSameGroup(r, org, a, b);
    }
  }

  ghost function Elements(s: seq<Pair>): set<Pair> {
    set x | x in s
  }

  lemma SameMarkSameGroup(r: Run, org: nat, a: nat, b: nat)
    requires Migrated(r) && Created(r, a) && Created(r, b) && Creation(r, a).org == Creation(r, b).org == org
    requires Elements(Creation(r, a).mark) == Elements(Creation(r, b).mark)
    ensures a == b
  {
    SomeMemberHolds(r, org, a);
    SomeMemberHolds(r, org, b);
    var m, n := Creation(r, a), Creation(r, b);
    forall y ensures y in m.mark <==> y in n.mark {
      assert y in Elements(m.mark) <==> y in Elements(n.mark);
    }
    SortedListingUnique(m.mark, n.mark);
    assert (m.org, m.mark) == (n.org, n.mark);
  }

  lemma MapInOrganization(c: Codec, t: Tables, org: nat, user: nat)
    requires Participates(t, (org, user))
    ensures GrantMap(c, t, (org, user)) in GrantMapsOf(c, t, org)
  {
    var g :| g in t.grants && Owner(t, g) == Some((org, user));
    assert GrantMap(c, t, Owner(t, g).value) in GrantMapsOf(c, t, org);
  }

  lemma SomeMemberHolds(r: Run, org: nat, group: nat)
    requires Migrated(r) && Created(r, group) && Creation(r, group).org == org
    ensures Elements(Creation(r, group).mark) in GrantMapsOf(r.c, r.t, org) && ByProject(Creation(r, group).mark)
  {
    IsValid(r);
    CreationIsNew(r, group);
    MarkIsHeld(r.c, r.t, Creation(r, group));
  }

  lemma MarkIsHeld(c: Codec, t: Tables, n: NewGroup)
    requires Valid(t) && IsNewGroup(c, t, n)
    ensures Elements(n.mark) in GrantMapsOf(c, t, n.org) && ByProject(n.mark)
  {
    var user := n.users[0];
    assert user in n.users;
    UsersOfNew(c, t, n, user);
    PrintMeaning(c, t, (n.org, user));
    MapInOrganization(c, t, n.org, user);
    assert Elements(n.mark) == GrantMap(c, t, (n.org, user));
  }

  lemma GroupFor(r: Run, org: nat, m: set<Pair>) returns (group: nat)
    requires Migrated(r) && m in GrantMapsOf(r.c, r.t, org)
    ensures Created(r, group) && Creation(r, group).org == org && Elements(Creation(r, group).mark) == m
  {
    IsValid(r);
    var g :| g in r.t.grants && Owner(r.t, g).Some? && Owner(r.t, g).value.0 == org && GrantMap(r.c, r.t, Owner(r.t, g).value) == m;
    var who := Owner(r.t, g).value;
    group := ParticipantHasGroup(r, who);
    PrintMeaning(r.c, r.t, who);
    assert Elements(Creation(r, group).mark) == m;
  }

  lemma NewGroupIds(r: Run, org: nat, id: nat)
    requires Migrated(r)
    ensures id in NewGroupsOf(r, org) <==> Created(r, id) && Creation(r, id).org == org
  {
    GroupOrganizations(r.t, r.made, org, id);
    assert GroupIn(AddAll(r.t, r.made), org, id) <==> GroupIn(r.t', org, id);
  }

  // The constraints hold afterwards.

  lemma AddKeepsGroups(t: Tables, n: NewGroup)
    requires Valid(t) && (n.org, n.key) !in GroupKeys(t)
    ensures var t' := Add(t, n);
      && ValidGroups(t'.groups, t'.nextGroup)
      && GroupIds(t') == GroupIds(t) + {t.nextGroup} && GroupKeys(t') == GroupKeys(t) + {(n.org, n.key)}
  {
    var t' := Add(t, n);
    assert t'.groups[|t.groups|] == Group(t.nextGroup, n.org, n.name, n.key);
    forall gr ensures gr in t'.groups <==> gr in t.groups || gr == t'.groups[|t.groups|] {}
    forall i | 0 <= i < |t.groups| ensures (t.groups[i].org, t.groups[i].key) in GroupKeys(t) {}
  }

  lemma AddKeepsRows(t: Tables, n: NewGroup)
    requires Valid(t) && Ascending(NatLt, n.users) && DistinctProjects(n.grants)
    ensures NoDup(Add(t, n).groupMembers) && DistinctHoldings(Add(t, n).groupGrants)
  {
    forall i | 0 <= i < |t.groupMembers| ensures t.groupMembers[i].0 < t.nextGroup {
      MembersHaveOldNumbers(t, t.groupMembers[i].0, t.groupMembers[i].1);
    }
    forall i | 0 <= i < |t.groupGrants| ensures t.groupGrants[i].group < t.nextGroup {
      GrantsHaveOldNumbers(t, t.groupGrants[i]);
    }
  }

  lemma AddKeepsValid(t: Tables, n: NewGroup)
    requires Valid(t) && Ascending(NatLt, n.users) && DistinctProjects(n.grants) && (n.org, n.key) !in GroupKeys(t)
    ensures Valid(Add(t, n)) && GroupKeys(Add(t, n)) == GroupKeys(t) + {(n.org, n.key)}
  {
    AddKeepsGroups(t, n);
    AddKeepsRows(t, n);
  }

  lemma {:induction false} AddAllKeepsValid(t: Tables, made: seq<NewGroup>)
    requires Valid(t) && FreshKeys(t, made)
    requires forall i :: 0 <= i < |made| ==> Ascending(NatLt, made[i].users) && DistinctProjects(made[i].grants)
    ensures Valid(AddAll(t, made))
    ensures forall e :: e in GroupKeys(AddAll(t, made)) ==> e in GroupKeys(t) || exists i :: 0 <= i < |made| && e == (made[i].org, made[i].key)
  {
    if made != [] {
      AddAllKeepsValid(t, made[..|made| - 1]);
      AddKeepsValid(AddAll(t, made[..|made| - 1]), made[|made| - 1]);
    }
  }

  lemma {:induction false} UnmigratedIsSubsequence(t: Tables, gs: seq<Grant>) returns (at: seq<nat>)
    ensures |at| == |Unmigrated(t, gs)| && forall i :: 0 <= i < |at| ==> at[i] < |gs| && gs[at[i]] == Unmigrated(t, gs)[i]
    ensures forall i, j :: 0 <= i < j < |at| ==> at[i] < at[j]
  {
    at := [];
    if gs != [] {
      at := UnmigratedIsSubsequence(t, gs[..|gs| - 1]);
      if Owner(t, gs[|gs| - 1]).None? {
        at := at + [|gs| - 1];
      }
    }
  }

  /** Every unique constraint and foreign key holds again afterwards; all (organization, name key) pairs stay unique. */
  lemma ConstraintsHold(r: Run)
    requires Migrated(r)
    ensures Valid(r.t')
  {
    IsValid(r);
    forall i | 0 <= i < |r.made| ensures Ascending(NatLt, r.made[i].users) && DistinctProjects(r.made[i].grants) {
      assert IsNewGroup(r.c, r.t, r.made[i]);
    }
    AddAllKeepsValid(r.t, r.made);
    var at := UnmigratedIsSubsequence(r.t, r.t.grants);
    assert GroupIds(r.t') == GroupIds(AddAll(r.t, r.made));
  }

  /** A second run finds nothing to migrate and changes nothing. */
  lemma SecondRunChangesNothing(r: Run, r2: Run)
    requires Migrated(r) && Migrated(r2) && r2.t == r.t' && r2.c == r.c
    ensures r2.made == [] && r2.t' == r.t'
  {
    IsValid(r);
    OtherRowsUntouched(r.t, r.t.grants);
    forall g | g in r2.t.grants ensures Owner(r2.t, g).None? {
      assert Owner(r2.t, g) == Owner(r.t, g);
    }
    OtherRowsUntouched(r2.t, r2.t.grants);
    NobodyNoGroup(r2);
  }

  lemma NobodyNoGroup(r: Run)
    requires Migrated(r)
    ensures (forall m :: !Participates(r.t, m)) ==> r.made == []
  {
    if r.made != [] {
      var n := r.made[0];
      assert IsNewGroup(r.c, r.t, n);
      assert n.users[0] in n.users;
    }
  }
}
