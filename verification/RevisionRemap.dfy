/**
 Model of backend/app/alembic_revision_remap.py: version rows stamped with the old ids of renamed
 migrations move to the new ids before the migrations run.
 */
module RevisionRemap {
  import opened Text

  type Rev = string
  type Graph = map<Rev, set<Rev>>    // revision, its down revisions
  type Renaming = map<Rev, Rev>

  const RENAMED: Renaming := map[
    "u1v2w3x4y5z6" := "a1c0e5b7d2f4",
    "v2w3x4y5z6a7" := "b2d1f6c8e3a5",
    "w3x4y5z6a7b8" := "c3e2a7d9f4b6",
    "x4y5z6a7b8c9" := "d4f3b8e0a5c7",
    "y5z6a7b8c9d0" := "e5a4c9f1b6d8",
    "z6a7b8c9d0e1" := "f6b5d0a2c7e9"
  ]

  ghost predicate Injective(ren: Renaming) {
    forall a, b :: a in ren && b in ren && ren[a] == ren[b] ==> a == b
  }

  /** Old and new ids never meet. */
  ghost predicate Sound(ren: Renaming) {
    Injective(ren) && ren.Keys !! ren.Values
  }

  function New(ren: Renaming, r: Rev): Rev {
    if r in ren then ren[r] else r
  }

  ghost function Remapped(ren: Renaming, rows: set<Rev>): set<Rev> {
    set r | r in rows :: New(ren, r)
  }

  // ---- What a version row means ------------------------------------------------------------

  ghost predicate IsPath(g: Graph, p: seq<Rev>) {
    && p != [] && (forall i :: 0 <= i < |p| ==> p[i] in g)
    && (forall i :: 0 < i < |p| ==> p[i] in g[p[i - 1]])
  }

  ghost predicate Descends(g: Graph, from: Rev, to: Rev, p: seq<Rev>) {
    IsPath(g, p) && p[0] == from && p[|p| - 1] == to
  }

  /** The migrations a database stamped with `rows` has applied: the rows and all their ancestors. */
  ghost function Applied(g: Graph, rows: set<Rev>): set<Rev> {
    set a | a in g && exists h, p :: h in rows && Descends(g, h, a, p)
  }

  /** `g'` holds every revision of `g` under its new name, above the same parents. It may hold more. */
  ghost predicate Renames(ren: Renaming, g: Graph, g': Graph) {
    && Sound(ren) && ren.Keys <= g.Keys && g.Keys !! ren.Values
    && (forall r :: r in g ==> g[r] <= g.Keys)
    && (forall r :: r in g ==> New(ren, r) in g' && g'[New(ren, r)] == Remapped(ren, g[r]))
  }

  /** The id a row had before the renaming; rows may already carry new ids. */
  ghost function Old(ren: Renaming, r: Rev): Rev {
    if r in ren.Values then var k :| k in ren && ren[k] == r; k else r
  }

  ghost function OldNames(ren: Renaming, rows: set<Rev>): set<Rev> {
    set r | r in rows :: Old(ren, r)
  }

  lemma {:induction false} PathForward(ren: Renaming, g: Graph, g': Graph, p: seq<Rev>) returns (q: seq<Rev>)
    requires Renames(ren, g, g') && IsPath(g, p)
    ensures Descends(g', New(ren, p[0]), New(ren, p[|p| - 1]), q)
  {
    q := seq(|p|, i requires 0 <= i < |p| => New(ren, p[i]));
  }

  lemma {:induction false} PathBack(ren: Renaming, g: Graph, g': Graph, h: Rev, q: seq<Rev>) returns (p: seq<Rev>)
    requires Renames(ren, g, g') && h in g && IsPath(g', q) && q[0] == New(ren, h)
    ensures IsPath(g, p) && p[0] == h && New(ren, p[|p| - 1]) == q[|q| - 1]
    decreases |q|
  {
    if |q| == 1 {
      p := [h];
    } else {
      assert q[1] in g'[q[0]];
      var parent :| parent in g[h] && New(ren, parent) == q[1];
      var rest := PathBack(ren, g, g', parent, q[1..]);
      p := [h] + rest;
    }
  }

  /**
   What has been applied is preserved: in the renamed graph the rewritten rows stand for exactly the
   renamed migrations the old rows stood for, and for none of the ids that were given to another chain.
   */
  lemma AppliedPreserved(ren: Renaming, g: Graph, g': Graph, rows: set<Rev>)
    requires Renames(ren, g, g') && rows <= g.Keys + ren.Values
    ensures Applied(g', Remapped(ren, rows)) == Remapped(ren, Applied(g, OldNames(ren, rows)))
    ensures Applied(g', Remapped(ren, rows)) !! ren.Keys
  {
    var before := OldNames(ren, rows);
    forall a ensures a in Applied(g', Remapped(ren, rows)) <==> a in Remapped(ren, Applied(g, before)) {
      if a in Applied(g', Remapped(ren, rows)) {
        var h', q :| h' in Remapped(ren, rows) && Descends(g', h', a, q);
        var row :| row in rows && New(ren, row) == h';
        var h := Old(ren, row);
        var p := PathBack(ren, g, g', h, q);
        assert h in before && Descends(g, h, p[|p| - 1], p);
      }
      if a in Remapped(ren, Applied(g, before)) {
        var b :| b in Applied(g, before) && New(ren, b) == a;
        var h, p :| h in before && Descends(g, h, b, p);
        var row :| row in rows && Old(ren, row) == h;
        var q := PathForward(ren, g, g', p);
        assert New(ren, row) in Remapped(ren, rows) && Descends(g', New(ren, row), a, q);
      }
    }
    forall a | a in Remapped(ren, Applied(g, before)) ensures a !in ren {
      var b :| b in Applied(g, before) && New(ren, b) == a;
    }
  }

  /** The rewritten rows hold no old id, so rewriting them again changes nothing. */
  lemma RemapSettles(ren: Renaming, rows: set<Rev>)
    requires Sound(ren)
    ensures Remapped(ren, rows) !! ren.Keys
    ensures Remapped(ren, Remapped(ren, rows)) == Remapped(ren, rows)
    ensures Remapped(ren, rows) == rows <==> rows !! ren.Keys
  {
    forall r | r in Remapped(ren, rows) ensures r !in ren && New(ren, r) == r {}
    if rows !! ren.Keys {
      forall r ensures r in Remapped(ren, rows) <==> r in rows {
        if r in rows { assert New(ren, r) == r; }
      }
    }
  }

  // ---- The repair --------------------------------------------------------------------------

  type Schema = map<string, set<string>>    // table, its columns

  const OLD_CHAIN_MARKER := ("organization_members", "workspace_permissions")
  const UPSTREAM_CHAIN_MARKER := ("project_model_providers", "endpoint")

  predicate HasColumn(schema: Schema, mark: (string, string)) {
    mark.0 in schema && mark.1 in schema[mark.0]
  }

  /** The database is on the old chain: its marker is there and the upstream one is not. */
  predicate OnOldChain(schema: Schema) {
    "alembic_version" in schema && HasColumn(schema, OLD_CHAIN_MARKER) && !HasColumn(schema, UPSTREAM_CHAIN_MARKER)
  }

  ghost function RowSet(rows: seq<Rev>): set<Rev> {
    set r | r in rows
  }

  function Moves(ren: Renaming, olds: seq<Rev>): (r: seq<(Rev, Rev)>)
    requires forall o :: o in olds ==> o in ren
    ensures |r| == |olds|
  {
    seq(|olds|, i requires 0 <= i < |olds| => (olds[i], ren[olds[i]]))
  }

  class Database {
    const schema: Schema
    var rows: seq<Rev>    // alembic_version.version_num, a primary key

    constructor (schema: Schema, rows: seq<Rev>)
      requires NoDup(rows)
      ensures this.schema == schema && this.rows == rows
    {
      this.schema := schema;
      this.rows := rows;
    }

    method Find(r: Rev) returns (i: nat)
      requires r in rows
      ensures i < |rows| && rows[i] == r
    {
      i := 0;
      assert rows[..|rows|] == rows;
      while i < |rows| && rows[i] != r
        invariant i <= |rows| && r !in rows[..i]
      {
        i := i + 1;
      }
    }

    method Delete(r: Rev)
      requires NoDup(rows) && r in rows
      modifies this
      ensures NoDup(rows) && RowSet(rows) == old(RowSet(rows)) - {r}
    {
      var i := Find(r);
      ghost var before := rows;
      rows := rows[..i] + rows[i + 1..];
      forall x ensures x in rows <==> x in before && x != r {
        if x in before && x != r {
          var j :| 0 <= j < |before| && before[j] == x;
          assert j < i ==> rows[j] == x;
          assert j > i ==> rows[j - 1] == x;
        }
      }
    }

    /** The new id must not be there yet: the column is a primary key. */
    method Update(r: Rev, r': Rev)
      requires NoDup(rows) && r in rows && r' !in rows
      modifies this
      ensures NoDup(rows) && RowSet(rows) == old(RowSet(rows)) - {r} + {r'}
    {
      var i := Find(r);
      ghost var before := rows;
      rows := rows[i := r'];
      assert rows[i] == r';
      forall x ensures x in rows <==> x == r' || (x in before && x != r) {
        if x in before && x != r {
          var j :| 0 <= j < |before| && before[j] == x;
          assert rows[j] == x;
        }
      }
    }

    method MoveRows(ren: Renaming, stamped: set<Rev>, olds: seq<Rev>) returns (moved: seq<(Rev, Rev)>)
      requires Sound(ren) && Ascending(StrLt, olds)
      requires NoDup(rows) && RowSet(rows) == stamped && forall o :: o in olds ==> o in ren && o in stamped
      modifies this
      ensures NoDup(rows) && moved == Moves(ren, olds) && RowSet(rows) == Partly(ren, stamped, olds, |olds|)
    {
      moved := [];
      for i := 0 to |olds|
        invariant NoDup(rows) && moved == Moves(ren, olds[..i])
        invariant RowSet(rows) == Partly(ren, stamped, olds, i)
      {
        MoveRow(ren, stamped, olds, i);
        moved := moved + [(olds[i], ren[olds[i]])];
        assert olds[..i + 1] == olds[..i] + [olds[i]];
      }
      assert olds[..|olds|] == olds;
    }

    /** One turn of the loop: the snapshot says whether the new id is already there. */
    method MoveRow(ren: Renaming, stamped: set<Rev>, olds: seq<Rev>, i: nat)
      requires Sound(ren) && Ascending(StrLt, olds) && i < |olds| && forall o :: o in olds ==> o in ren && o in stamped
      requires NoDup(rows) && RowSet(rows) == Partly(ren, stamped, olds, i)
      modifies this
      ensures NoDup(rows) && RowSet(rows) == Partly(ren, stamped, olds, i + 1)
    {
      var rev := olds[i];
      PartlyNext(ren, stamped, olds, i);
      assert rev in RowSet(rows);
      if ren[rev] in stamped {
        Delete(rev);
      } else {
        assert ren[rev] !in RowSet(rows);
        Update(rev, ren[rev]);
      }
    }

    method Remap(ren: Renaming) returns (moved: seq<(Rev, Rev)>)
      requires NoDup(rows) && Sound(ren)
      modifies this
      ensures NoDup(rows)
      ensures !OnOldChain(schema) ==> rows == old(rows) && moved == []
      ensures OnOldChain(schema) ==>
                && RowSet(rows) == Remapped(ren, old(RowSet(rows)))
                && (forall m :: m in moved <==> m.0 in ren && m.0 in old(rows) && m.1 == ren[m.0])
                && (forall i, j :: 0 <= i < j < |moved| ==> StrLt(moved[i].0, moved[j].0))
      ensures (exists r :: r in old(rows) && r in ren) && "alembic_version" in schema
              && "organization_members" in schema && "workspace_permissions" in schema["organization_members"]
              && !("project_model_providers" in schema && "endpoint" in schema["project_model_providers"]) ==>
                moved != [] && RowSet(rows) == Remapped(ren, old(RowSet(rows)))
      ensures (forall r :: r in rows ==> r !in ren) <== OnOldChain(schema)
      ensures moved == [] ==> rows == old(rows)
    {
      moved := [];
      if "alembic_version" !in schema { return; }
      var stamped := set r | r in rows;
      var olds := SortedSet(StrLt, Known(ren, rows));
      StrLtIsTotalOrder();
      SortedSetAscending(StrLt, Known(ren, rows));
      KnownIsTheOldRows(ren, rows);
      RemapSettles(ren, stamped);
      if olds == [] {
        assert forall r :: r in stamped ==> r !in ren by {
          forall r | r in stamped ensures r !in ren { assert r !in olds; }
        }
        return;
      }
      if !HasColumn(schema, OLD_CHAIN_MARKER) || HasColumn(schema, UPSTREAM_CHAIN_MARKER) { return; }
      moved := MoveRows(ren, stamped, olds);
      PartlyDone(ren, stamped, olds);
      MovesListed(ren, olds);
    }
  }

  /** `stamped & RENAMED.keys()` */
  function Known(ren: Renaming, rows: seq<Rev>): seq<Rev> {
    if rows == [] then []
    else (if rows[0] in ren then [rows[0]] else []) + Known(ren, rows[1..])
  }

  lemma {:induction false} KnownIsTheOldRows(ren: Renaming, rows: seq<Rev>)
    ensures forall r :: r in Known(ren, rows) <==> r in rows && r in ren
  {
    if rows != [] {
      KnownIsTheOldRows(ren, rows[1..]);
      assert rows == [rows[0]] + rows[1..];
    }
  }

  /** The rows after the first `i` old ids have moved. */
  ghost function Partly(ren: Renaming, stamped: set<Rev>, olds: seq<Rev>, i: nat): set<Rev>
    requires i <= |olds| && forall o :: o in olds ==> o in ren
  {
    (stamped - set o | o in olds[..i]) + set o | o in olds[..i] :: ren[o]
  }

  lemma PartlyNext(ren: Renaming, stamped: set<Rev>, olds: seq<Rev>, i: nat)
    requires Sound(ren) && i < |olds| && Ascending(StrLt, olds)
    requires forall o :: o in olds ==> o in ren && o in stamped
    ensures olds[i] in Partly(ren, stamped, olds, i)
    ensures ren[olds[i]] !in stamped ==> ren[olds[i]] !in Partly(ren, stamped, olds, i)
    ensures Partly(ren, stamped, olds, i + 1) == Partly(ren, stamped, olds, i) - {olds[i]} + {ren[olds[i]]}
    ensures ren[olds[i]] in stamped ==> Partly(ren, stamped, olds, i + 1) == Partly(ren, stamped, olds, i) - {olds[i]}
  {
    var rev := olds[i];
    StrLtIsTotalOrder();
    assert olds[..i + 1] == olds[..i] + [rev];
    forall o | o in olds[..i] ensures o in olds && o != rev && ren[o] != ren[rev] {
      var j :| 0 <= j < i && olds[j] == o;
      assert StrLt(olds[j], olds[i]);
    }
    forall o | o in olds ensures ren[o] !in olds {}
  }

  lemma PartlyDone(ren: Renaming, stamped: set<Rev>, olds: seq<Rev>)
    requires Sound(ren) && forall o :: o in olds <==> o in ren && o in stamped
    ensures Partly(ren, stamped, olds, |olds|) == Remapped(ren, stamped)
  {
    assert olds[..|olds|] == olds;
    forall r ensures r in Partly(ren, stamped, olds, |olds|) <==> r in Remapped(ren, stamped) {
      if r in stamped && r !in olds { assert New(ren, r) == r; }
      if o :| o in olds && ren[o] == r { assert New(ren, o) == r; }
    }
  }

  lemma MovesListed(ren: Renaming, olds: seq<Rev>)
    requires forall o :: o in olds ==> o in ren
    ensures forall m :: m in Moves(ren, olds) <==> m.0 in olds && m.1 == ren[m.0]
  {
    forall m: (Rev, Rev) | m.0 in olds && m.1 == ren[m.0] ensures m in Moves(ren, olds) {
      var i :| 0 <= i < |olds| && olds[i] == m.0;
      assert Moves(ren, olds)[i] == m;
    }
  }

  // ---- The renaming of this repository -----------------------------------------------------

  /**
   The old chain and its new home, and the chain that got the old ids. What their common parent stands on
   is left open.
   */
  const OLD_DAG: Graph := map[
    "s9t0u1v2w3x4" := {},
    "u1v2w3x4y5z6" := {"s9t0u1v2w3x4"}, "v2w3x4y5z6a7" := {"u1v2w3x4y5z6"}, "w3x4y5z6a7b8" := {"v2w3x4y5z6a7"},
    "x4y5z6a7b8c9" := {"w3x4y5z6a7b8"}, "y5z6a7b8c9d0" := {"x4y5z6a7b8c9"}, "z6a7b8c9d0e1" := {"y5z6a7b8c9d0"}
  ]
  const NEW_DAG: Graph := map[
    "s9t0u1v2w3x4" := {},
    "a1c0e5b7d2f4" := {"s9t0u1v2w3x4"}, "b2d1f6c8e3a5" := {"a1c0e5b7d2f4"}, "c3e2a7d9f4b6" := {"b2d1f6c8e3a5"},
    "d4f3b8e0a5c7" := {"c3e2a7d9f4b6"}, "e5a4c9f1b6d8" := {"d4f3b8e0a5c7"}, "f6b5d0a2c7e9" := {"e5a4c9f1b6d8"},
    "t0u1v2w3x4y5" := {"s9t0u1v2w3x4"},
    "u1v2w3x4y5z6" := {"t0u1v2w3x4y5"}, "v2w3x4y5z6a7" := {"u1v2w3x4y5z6"}, "w3x4y5z6a7b8" := {"v2w3x4y5z6a7"},
    "x4y5z6a7b8c9" := {"w3x4y5z6a7b8"}, "y5z6a7b8c9d0" := {"x4y5z6a7b8c9"}, "z6a7b8c9d0e1" := {"y5z6a7b8c9d0"}
  ]

  const RESTORED: Renaming := map[
    "a1c0e5b7d2f4" := "u1v2w3x4y5z6",
    "b2d1f6c8e3a5" := "v2w3x4y5z6a7",
    "c3e2a7d9f4b6" := "w3x4y5z6a7b8",
    "d4f3b8e0a5c7" := "x4y5z6a7b8c9",
    "e5a4c9f1b6d8" := "y5z6a7b8c9d0",
    "f6b5d0a2c7e9" := "z6a7b8c9d0e1"
  ]

  lemma RestoredUndoes(r: Rev)
    requires r in RENAMED
    ensures RENAMED[r] in RESTORED && RESTORED[RENAMED[r]] == r && RENAMED[r] !in RENAMED
  {
  }

  lemma RenamedIsSound()
    ensures Sound(RENAMED)
  {
    forall r | r in RENAMED { RestoredUndoes(r); }
  }

  /** The migration that adds the upstream marker. */
  const MARKS: Rev := "t0u1v2w3x4y5"

  /** Where the old and the new chain fork off. */
  const FORK: Rev := "s9t0u1v2w3x4"

  /** The migrations that both chains stand on: closed under parents, with none of the two chains. */
  ghost predicate IsBase(h: Graph) {
    && FORK in h && MARKS !in h && h.Keys !! RENAMED.Keys && h.Keys !! RENAMED.Values
    && forall r :: r in h ==> h[r] <= h.Keys
  }

  /** `g` holds the migrations of `part`, above the same parents. */
  ghost predicate Holds(g: Graph, part: Graph) {
    forall r :: r in part ==> r in g && g[r] == part[r]
  }

  lemma Unrenamed(ren: Renaming, rows: set<Rev>)
    requires rows !! ren.Keys
    ensures Remapped(ren, rows) == rows
  {
    forall r | r in rows ensures New(ren, r) == r {}
  }

  lemma OneParent(ren: Renaming, parent: Rev)
    ensures Remapped(ren, {parent}) == {New(ren, parent)}
  {
  }

  lemma OldParent(r: Rev) returns (parent: Rev)
    requires r in RENAMED
    ensures r in OLD_DAG && OLD_DAG[r] == {parent} && (parent in RENAMED || parent == FORK)
  {
    parent :| parent in OLD_DAG[r];
  }

  lemma NewParent(r: Rev, parent: Rev)
    requires r in RENAMED && r in OLD_DAG && OLD_DAG[r] == {parent}
    ensures RENAMED[r] in NEW_DAG && NEW_DAG[RENAMED[r]] == {New(RENAMED, parent)}
  {
    assert parent in OLD_DAG[r];
  }

  lemma EdgeRenamed(r: Rev)
    requires r in RENAMED
    ensures r in OLD_DAG && OLD_DAG[r] <= RENAMED.Keys + {FORK}
    ensures RENAMED[r] in NEW_DAG && NEW_DAG[RENAMED[r]] == Remapped(RENAMED, OLD_DAG[r])
  {
    var parent := OldParent(r);
    NewParent(r, parent);
    OneParent(RENAMED, parent);
  }

  lemma OldRevisions()
    ensures OLD_DAG.Keys == RENAMED.Keys + {FORK}
  {
  }

  lemma EntryRenamed(h: Graph, g': Graph, r: Rev)
    requires IsBase(h) && Holds(g', NEW_DAG + h) && r in OLD_DAG + h
    ensures var g := OLD_DAG + h;
      g[r] <= g.Keys && New(RENAMED, r) in g' && g'[New(RENAMED, r)] == Remapped(RENAMED, g[r])
  {
    OldRevisions();
    if r in h {
      Unrenamed(RENAMED, h[r]);
      assert r in NEW_DAG + h;
    } else {
      EdgeRenamed(r);
      assert RENAMED[r] in NEW_DAG + h;
    }
  }

  /**
   The repository's own renaming meets every hypothesis of `AppliedPreserved`, whatever migrations the two
   chains stand on and whatever else the new history holds.
   */
  lemma RepositoryRenames(h: Graph, g': Graph)
    requires IsBase(h) && Holds(g', NEW_DAG + h)
    ensures Renames(RENAMED, OLD_DAG + h, g')
  {
    RenamedIsSound();
    OldRevisions();
    forall r | r in OLD_DAG + h { EntryRenamed(h, g', r); }
  }

  /**
   The gate never fires on a database that ran the upstream chain: every reused id has the migration
   that adds the upstream marker among its ancestors.
   */
  lemma UpstreamDatabaseUntouched(g: Graph, rows: set<Rev>, schema: Schema, marks: Rev)
    requires forall r :: r in RENAMED ==> r in g && marks in Applied(g, {r})
    requires marks in Applied(g, rows) ==> HasColumn(schema, UPSTREAM_CHAIN_MARKER)
    requires exists r :: r in rows && r in RENAMED
    ensures !OnOldChain(schema)
  {
    var r :| r in rows && r in RENAMED;
    var h, p :| h in {r} && Descends(g, h, marks, p);
    assert h in rows;
  }

  lemma AboveParent(g: Graph, marks: Rev, r: Rev, parent: Rev)
    requires r in g && parent in g[r] && marks in Applied(g, {parent})
    ensures marks in Applied(g, {r})
  {
    var h, p :| h in {parent} && Descends(g, h, marks, p);
    var q := [r] + p;
    assert forall i :: 0 <= i < |p| ==> q[i + 1] == p[i];
    forall i | 0 < i < |q| ensures q[i] in g[q[i - 1]] {
      assert i > 1 ==> p[i - 1] in g[p[i - 2]];
    }
    assert Descends(g, r, marks, q);
  }

  /** `g` holds the migrations of `part`, above the same parents and perhaps others. */
  ghost predicate Extends(g: Graph, part: Graph) {
    forall r :: r in part ==> r in g && part[r] <= g[r]
  }

  /** In any history that holds the repository's migrations every reused id is above the marker's migration. */
  lemma ReusedAboveMarker(g: Graph)
    requires Extends(g, NEW_DAG)
    ensures forall r :: r in RENAMED ==> r in g && MARKS in Applied(g, {r})
  {
    assert MARKS in NEW_DAG;
    assert Descends(g, MARKS, MARKS, [MARKS]);
    ReusedStep(g, "u1v2w3x4y5z6", MARKS);
    ReusedStep(g, "v2w3x4y5z6a7", "u1v2w3x4y5z6");
    ReusedStep(g, "w3x4y5z6a7b8", "v2w3x4y5z6a7");
    ReusedStep(g, "x4y5z6a7b8c9", "w3x4y5z6a7b8");
    ReusedStep(g, "y5z6a7b8c9d0", "x4y5z6a7b8c9");
    ReusedStep(g, "z6a7b8c9d0e1", "y5z6a7b8c9d0");
  }

  lemma ReusedStep(g: Graph, r: Rev, parent: Rev)
    requires Extends(g, NEW_DAG) && r in NEW_DAG && NEW_DAG[r] == {parent} && MARKS in Applied(g, {parent})
    ensures MARKS in Applied(g, {r})
  {
    AboveParent(g, MARKS, r, parent);
  }

  /** So a database of this repository that is stamped with a reused id and has run what is below it is left alone. */
  lemma RepositoryUntouched(g: Graph, rows: set<Rev>, schema: Schema)
    requires Extends(g, NEW_DAG)
    requires MARKS in Applied(g, rows) ==> HasColumn(schema, UPSTREAM_CHAIN_MARKER)
    requires exists r :: r in rows && r in RENAMED
    ensures !OnOldChain(schema)
  {
    ReusedAboveMarker(g);
    UpstreamDatabaseUntouched(g, rows, schema, MARKS);
  }

  // ---- The databases the repair is for -------------------------------------------------------

  /** The first migration of the old chain, which adds the old chain's marker. */
  const FIRST_OLD: Rev := "u1v2w3x4y5z6"

  lemma AboveFirst(g: Graph, r: Rev, parent: Rev)
    requires Extends(g, OLD_DAG) && r in OLD_DAG && OLD_DAG[r] == {parent} && FIRST_OLD in Applied(g, {parent})
    ensures FIRST_OLD in Applied(g, {r})
  {
    AboveParent(g, FIRST_OLD, r, parent);
  }

  /** In the old history every id that was renamed is above the first one, or is it. */
  lemma RenamedAboveFirst(g: Graph)
    requires Extends(g, OLD_DAG)
    ensures forall r :: r in RENAMED ==> FIRST_OLD in Applied(g, {r})
  {
    assert FIRST_OLD in OLD_DAG;
    assert Descends(g, FIRST_OLD, FIRST_OLD, [FIRST_OLD]);
    AboveFirst(g, "v2w3x4y5z6a7", FIRST_OLD);
    AboveFirst(g, "w3x4y5z6a7b8", "v2w3x4y5z6a7");
    AboveFirst(g, "x4y5z6a7b8c9", "w3x4y5z6a7b8");
    AboveFirst(g, "y5z6a7b8c9d0", "x4y5z6a7b8c9");
    AboveFirst(g, "z6a7b8c9d0e1", "y5z6a7b8c9d0");
  }

  lemma AppliedMore(g: Graph, rows: set<Rev>, r: Rev, a: Rev)
    requires r in rows && a in Applied(g, {r})
    ensures a in Applied(g, rows)
  {
    var h, p :| h in {r} && Descends(g, h, a, p);
    assert h in rows;
  }

  /** The old history over any base: what the old chain stands for, and no migration of the upstream chain's start. */
  lemma OldHistory(h: Graph)
    requires IsBase(h)
    ensures Extends(OLD_DAG + h, h) && MARKS !in OLD_DAG + h
    ensures forall r :: r in RENAMED ==> r in OLD_DAG + h && (OLD_DAG + h)[r] == OLD_DAG[r]
  {
    OldRevisions();
  }

  lemma RenamedAboveFirstIn(h: Graph)
    requires IsBase(h)
    ensures forall r :: r in RENAMED ==> FIRST_OLD in Applied(OLD_DAG + h, {r})
  {
    OldHistory(h);
    var g := OLD_DAG + h;
    forall r | r in OLD_DAG ensures r in g && OLD_DAG[r] <= g[r] {
      ForkIsRoot(r);
    }
    RenamedAboveFirst(g);
  }

  lemma ForkIsRoot(r: Rev)
    requires r in OLD_DAG
    ensures r in RENAMED || (r == FORK && OLD_DAG[r] == {})
  {
  }

  /** A database stamped with `rows` in the old history, one of them an id that was renamed, has both columns as it ran. */
  ghost predicate IsOldDatabase(h: Graph, rows: set<Rev>, schema: Schema) {
    && rows <= (OLD_DAG + h).Keys && (exists r :: r in rows && r in RENAMED) && "alembic_version" in schema
    && (FIRST_OLD in Applied(OLD_DAG + h, rows) ==>
          "organization_members" in schema && "workspace_permissions" in schema["organization_members"])
    && ("project_model_providers" in schema && "endpoint" in schema["project_model_providers"] ==>
          MARKS in Applied(OLD_DAG + h, rows))
  }

  /** The first old migration was applied, so its column is there; the upstream one was not, so its column is not. */
  lemma OldColumns(h: Graph, rows: set<Rev>, schema: Schema)
    requires IsBase(h) && IsOldDatabase(h, rows, schema)
    ensures "organization_members" in schema && "workspace_permissions" in schema["organization_members"]
    ensures !("project_model_providers" in schema && "endpoint" in schema["project_model_providers"])
  {
    var r :| r in rows && r in RENAMED;
    RenamedAboveFirstIn(h);
    AppliedMore(OLD_DAG + h, rows, r, FIRST_OLD);
    OldHistory(h);
  }

  lemma StampedInOldHistory(h: Graph, rows: set<Rev>)
    requires IsBase(h) && rows <= (OLD_DAG + h).Keys
    ensures OldNames(RENAMED, rows) == rows
  {
    OldRevisions();
    RenamedIsSound();
    forall r | r in rows ensures Old(RENAMED, r) == r {}
  }

  /**
   The repair of a database of the old history, end to end: something moves, and in any new history the rows
   then stand for exactly the renamed migrations that were applied, and for none of the reused ids.
   */
  method RepairOldChain(db: Database, ghost h: Graph, ghost g': Graph) returns (moved: seq<(Rev, Rev)>)
    requires NoDup(db.rows) && IsBase(h) && Holds(g', NEW_DAG + h) && IsOldDatabase(h, RowSet(db.rows), db.schema)
    modifies db
    ensures moved != [] && NoDup(db.rows) && RowSet(db.rows) == Remapped(RENAMED, old(RowSet(db.rows)))
    ensures Applied(g', RowSet(db.rows)) == Remapped(RENAMED, Applied(OLD_DAG + h, old(RowSet(db.rows))))
    ensures Applied(g', RowSet(db.rows)) !! RENAMED.Keys
  {
    RenamedIsSound();
    OldColumns(h, RowSet(db.rows), db.schema);
    RepositoryRenames(h, g');
    StampedInOldHistory(h, RowSet(db.rows));
    AppliedPreserved(RENAMED, OLD_DAG + h, g', RowSet(db.rows));
    moved := db.Remap(RENAMED);
  }
}
