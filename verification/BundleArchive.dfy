/**
 Model of _extract_tar and resolve_bundle_dir in backend/app/platform/bundle_install.py, and of installing
 from an archive: extraction into a fresh directory, the choice of the bundle root, then installation.
 */
module BundleArchive {
  import opened Text
  import opened BundleChecksums
  import opened BundleInstall
  import Archive = ArchiveExtraction

  const MANIFEST: Path := ["manifest.json"]

  predicate HasManifest(tree: Tree) {
    MANIFEST in tree && tree[MANIFEST].File?
  }

  function TopDirs(tree: Tree): set<string> {
    set p | p in tree && |p| == 1 && tree[p].Dir? :: p[0]
  }

  /** The only top directory if there is one, else the destination itself; None: the layout is refused. */
  ghost function Resolved(tree: Tree): Option<Tree> {
    if |TopDirs(tree)| == 1 then
      var d :| d in TopDirs(tree); Some(Sub(tree, d))
    else if HasManifest(tree) then Some(tree)
    else None
  }

  lemma TheOnlyOne(s: set<string>, d: string)
    requires |s| == 1 && d in s
    ensures s == {d}
  {
    assert |s - {d}| == 0;
    assert forall x :: x in s ==> x == d || x in s - {d};
  }

  lemma OneTopDir(tree: Tree, d: string)
    requires TopDirs(tree) == {d}
    ensures Resolved(tree) == Some(Sub(tree, d))
  {
    assert |TopDirs(tree)| == 1;
  }

  method Resolve(tree: Tree) returns (r: Option<Tree>)
    ensures r == Resolved(tree)
  {
    var children := TopDirs(tree);
    if |children| == 1 {
      var d :| d in children;
      TheOnlyOne(children, d);
      OneTopDir(tree, d);
      return Some(Sub(tree, d));
    }
    r := if HasManifest(tree) then Some(tree) else None;
  }

  /** `d` is the only directory at the top of the tree; plain files beside it do not matter. */
  ghost predicate OnlyTopDir(tree: Tree, d: string) {
    [d] in tree && tree[[d]] == Dir && forall e :: [e] in tree && tree[[e]] == Dir ==> e == d
  }

  /** The only top directory is the bundle; without one the tree itself is if its manifest is a file, else it is refused. */
  lemma LayoutExactly(tree: Tree)
    ensures forall d :: OnlyTopDir(tree, d) ==> Resolved(tree) == Some(Sub(tree, d))
    ensures (forall d :: !OnlyTopDir(tree, d)) ==>
      Resolved(tree) == if ["manifest.json"] in tree && tree[["manifest.json"]] != Dir then Some(tree) else None
  {
    forall d ensures d in TopDirs(tree) <==> [d] in tree && tree[[d]] == Dir {
      if d in TopDirs(tree) {
        var p :| p in tree && |p| == 1 && tree[p].Dir? && p[0] == d;
        assert p == [d];
      }
      if [d] in tree && tree[[d]] == Dir {
        assert [d][0] == d;
      }
    }
    forall d | OnlyTopDir(tree, d) ensures Resolved(tree) == Some(Sub(tree, d)) {
      assert TopDirs(tree) == {d};
      OneTopDir(tree, d);
    }
    if |TopDirs(tree)| == 1 {
      var d :| d in TopDirs(tree);
      TheOnlyOne(TopDirs(tree), d);
      assert OnlyTopDir(tree, d);
    }
  }

  // ---- What an archive is taken for ----------------------------------------------------------------

  /** The deepest entry of a tree is not in a tree below it. */
  lemma DeeperThanItself(tree: Tree, d: string) returns (leaf: Path)
    requires [d] in tree
    ensures leaf in tree && leaf !in Sub(tree, d)
  {
    var paths := set p | p in tree && p != [];
    assert [d] in paths;
    var deepest, _ := Extremes(paths);
    leaf := deepest;
    assert [d] + leaf !in paths;
    assert leaf !in Below(tree, d);
  }

  /** A bundle packed below one top directory, whatever its name. */
  function Wrapped(bundle: Tree, d: string): Tree {
    (map p | p in Lifted(bundle, d) :: bundle[p[1..]])[[d] := Dir]
  }

  function Lifted(bundle: Tree, d: string): (r: set<Path>)
    ensures forall p :: p in r ==> p != [] && p[0] == d && p[1..] in bundle
  {
    set q | q in bundle && q != [] :: [d] + q
  }

  lemma WrappedHolds(bundle: Tree, d: string, q: Path)
    requires q != []
    ensures [d] + q in Wrapped(bundle, d) <==> q in bundle
    ensures q in bundle ==> Wrapped(bundle, d)[[d] + q] == bundle[q]
  {
    assert ([d] + q)[1..] == q;
  }

  lemma WrappedTop(bundle: Tree, d: string)
    requires [] !in bundle
    ensures TopDirs(Wrapped(bundle, d)) == {d}
  {
    var tree := Wrapped(bundle, d);
    assert [d] in tree && tree[[d]] == Dir && |[d]| == 1 && [d][0] == d;
    forall p | p in tree && |p| == 1 ensures p[0] == d {}
  }

  lemma WrappedSub(bundle: Tree, d: string)
    requires [] !in bundle
    ensures Sub(Wrapped(bundle, d), d) == bundle
  {
    var sub := Sub(Wrapped(bundle, d), d);
    forall q ensures q in sub <==> q in bundle
             ensures q in bundle ==> sub[q] == bundle[q]
    {
      if q != [] {
        WrappedHolds(bundle, d, q);
      }
    }
    SameTrees(sub, bundle);
  }

  /** Packed below a top directory, a bundle comes out as it was packed. */
  lemma WrappedIsRecognised(bundle: Tree, d: string)
    requires [] !in bundle
    ensures Resolved(Wrapped(bundle, d)) == Some(bundle)
  {
    WrappedTop(bundle, d);
    WrappedSub(bundle, d);
    OneTopDir(Wrapped(bundle, d), d);
  }

  lemma FlatResolves(tree: Tree, d: string)
    requires HasManifest(tree) && IsDir(tree, [d])
    ensures Resolved(tree) == if TopDirs(tree) == {d} then Some(Sub(tree, d)) else Some(tree)
  {
    assert [d][0] in TopDirs(tree);
    if TopDirs(tree) == {d} {
      OneTopDir(tree, d);
    } else if |TopDirs(tree)| == 1 {
      TheOnlyOne(TopDirs(tree), d);
    }
  }

  lemma NestedEntry(tree: Tree, d: string, name: string)
    ensures [name] in Sub(tree, d) <==> [d, name] in tree
    ensures [name] in Sub(tree, d) ==> Sub(tree, d)[[name]] == tree[[d, name]]
  {
    assert [d] + [name] == [d, name];
  }

  /** What an admitted bundle below `d` needs there. */
  lemma NestedNeeds(w: World, base: Tree, r: Request, tree: Tree, d: string)
    requires r.bundle == Some(Sub(tree, d)) && Admitted(w, base, r)
    ensures Verified(w.sha, Sub(tree, d)) && [d, CHECKSUMS] in tree && [d, "manifest.json"] in tree && IsDir(tree, [d, MODULES])
  {
    NestedEntry(tree, d, CHECKSUMS);
    NestedEntry(tree, d, "manifest.json");
    NestedEntry(tree, d, MODULES);
  }

  /**
   Packed flat, a bundle with a manifest and `modules` comes out as it was packed exactly when it has another
   top directory; otherwise the tree below `modules` is taken for the bundle (`ModulesAlone`).
   */
  lemma FlatIsRecognised(tree: Tree)
    requires HasManifest(tree) && IsDir(tree, [MODULES])
    ensures Resolved(tree) == Some(tree) <==> TopDirs(tree) != {MODULES}
  {
    if TopDirs(tree) == {MODULES} {
      ModulesAlone(tree);
      var leaf := DeeperThanItself(tree, MODULES);
    } else {
      FlatResolves(tree, MODULES);
    }
  }

  lemma ModulesAlone(tree: Tree)
    requires TopDirs(tree) == {MODULES}
    ensures Resolved(tree) == Some(Sub(tree, MODULES))
  {
    OneTopDir(tree, MODULES);
  }

  /** Such an archive is admitted only if `modules` happens to hold a whole verified bundle of its own. */
  lemma ModulesTakenForBundle(w: World, base: Tree, r: Request, tree: Tree)
    requires TopDirs(tree) == {MODULES} && r.bundle == Resolved(tree) && Admitted(w, base, r)
    ensures Verified(w.sha, Sub(tree, MODULES)) && [MODULES, CHECKSUMS] in tree
    ensures [MODULES, "manifest.json"] in tree && IsDir(tree, [MODULES, MODULES])
  {
    ModulesAlone(tree);
    NestedNeeds(w, base, r, tree, MODULES);
  }

  // ---- Installing from an archive --------------------------------------------------------------------

  /** What is below the destination. */
  function At(files: Tree, dest: Path): Tree {
    map q | q in BelowPlace(files, dest) :: files[dest + q]
  }

  function BelowPlace(files: Tree, dest: Path): (r: set<Path>)
    ensures forall q :: q in r <==> q != [] && dest + q in files
  {
    assert forall p :: p in files && dest < p ==> dest + p[|dest|..] == p;
    assert forall q: Path :: q != [] && dest + q in files ==> (dest + q)[|dest|..] == q && dest < dest + q;
    set p | p in files && dest < p :: p[|dest|..]
  }

  lemma PlaceIsRooted(files: Tree, dest: Path)
    requires Rooted(files)
    ensures Rooted(At(files, dest))
  {
    var tree := At(files, dest);
    forall q | q in tree ensures ParentIsDir(tree, q) {
      if |q| > 1 {
        var p := dest + q;
        assert ParentIsDir(files, p);
        assert p[..|p| - 1] == dest + q[..|q| - 1];
      }
    }
  }

  lemma SubIsRooted(tree: Tree, d: string)
    requires Rooted(tree)
    ensures Rooted(Sub(tree, d))
  {
    var sub := Sub(tree, d);
    forall q | q in sub ensures ParentIsDir(sub, q) {
      if |q| > 1 {
        var p := [d] + q;
        assert ParentIsDir(tree, p);
        assert p[..|p| - 1] == [d] + q[..|q| - 1];
      }
    }
  }

  lemma ResolvedIsRooted(tree: Tree)
    requires Rooted(tree) && Resolved(tree).Some?
    ensures Rooted(Resolved(tree).value)
  {
    if |TopDirs(tree)| == 1 {
      var d :| d in TopDirs(tree) && Resolved(tree) == Some(Sub(tree, d));
      SubIsRooted(tree, d);
    }
  }

  /** The tree an archive unpacks to, if extraction gets to its end. */
  ghost function Unpacked(filtered: bool, files: Tree, dest: Path, members: seq<Archive.Member>): Option<Tree> {
    var e := Archive.Written(filtered, files, dest, members);
    if Archive.Accepted(dest, members) && e.ok then Some(At(e.files, dest)) else None
  }

  /** Into a fresh directory every packed tree unpacks to itself. */
  lemma UnpackedIsPacked(filtered: bool, files: Tree, dest: Path, members: seq<Archive.Member>, tree: Tree)
    requires Archive.Fresh(files, dest) && Archive.IsPackable(tree) && Archive.Packs(members, tree)
    ensures Unpacked(filtered, files, dest, members) == Some(tree)
  {
    var end := Archive.Written(filtered, files, dest, members).files;
    Archive.PackedIsCompatible(filtered, dest, members, tree);
    Archive.EndsExactly(filtered, files, dest, members);
    assert [] !in tree && [] !in At(end, dest);
    forall q ensures q in At(end, dest) <==> q in tree
             ensures q in tree ==> At(end, dest)[q] == tree[q]
    {
      if q != [] {
        Archive.PackedComesOut(filtered, files, dest, members, tree, q);
      }
    }
    SameTrees(At(end, dest), tree);
  }

  /**
   Packing and unpacking: a tree with one top directory, its members packed in any order, with or without
   entries for directories, unpacks and resolves to the bundle below that directory.
   */
  lemma PackedBundleComesOut(filtered: bool, files: Tree, dest: Path, members: seq<Archive.Member>, tree: Tree, d: string, bundle: Tree)
    requires Archive.Fresh(files, dest) && Archive.IsPackable(tree) && Archive.Packs(members, tree)
    requires TopDirs(tree) == {d} && Sub(tree, d) == bundle
    ensures var got := Unpacked(filtered, files, dest, members); got.Some? && Resolved(got.value) == Some(bundle)
  {
    UnpackedIsPacked(filtered, files, dest, members, tree);
    OneTopDir(tree, d);
  }

  /** Any bundle below a top directory of any ordinary name is such a tree. */
  lemma WrappedIsPackable(bundle: Tree, d: string)
    requires Archive.IsPackable(bundle) && Archive.IsOrdinary(d)
    ensures var tree := Wrapped(bundle, d);
      Archive.IsPackable(tree) && TopDirs(tree) == {d} && Sub(tree, d) == bundle
  {
    var tree := Wrapped(bundle, d);
    assert [] !in bundle;
    WrappedTop(bundle, d);
    WrappedSub(bundle, d);
    forall p | p in tree ensures Archive.IsPlain(p) && ParentIsDir(tree, p) {
      if p != [d] {
        var q := p[1..];
        assert p == [d] + q && q in bundle && Archive.IsPlain(q) && ParentIsDir(bundle, q);
        if |q| > 1 {
          var parent := q[..|q| - 1];
          WrappedHolds(bundle, d, parent);
          assert p[..|p| - 1] == [d] + parent;
        } else {
          assert p[..|p| - 1] == [d];
        }
      }
    }
  }

  /** The version that the unpacked bundle's manifest gives, if any, is a plain path component. */
  ghost predicate PlainVersion(w: World, tree: Option<Tree>) {
    match tree
    case None => true
    case Some(t) =>
      Resolved(t).Some? && VersionOf(w, Resolved(t).value).Some? ==> IsVersion(VersionOf(w, Resolved(t).value).value)
  }

  /**
   The version is installed exactly when extraction ends and the tree it resolves to is admitted; nothing is
   written outside the temporary directory and the installed tree, and a refusal leaves the latter alone.
   */
  method InstallArchive(temp: Archive.Disk, filtered: bool, dest: Path, members: seq<Archive.Member>,
                        store: Store, w: World, r: Request) returns (installed: Option<string>)
    requires Archive.IsPlace(temp.files, dest) && Rooted(temp.files) && Sane(store.disk.base)
    requires PlainVersion(w, Unpacked(filtered, temp.files, dest, members))
    modifies temp, store
    ensures Archive.SameOutside(dest, old(temp.files), temp.files)
    ensures installed.None? ==> store.disk == old(store.disk) && store.trace == old(store.trace)
    ensures var tree := Unpacked(filtered, old(temp.files), dest, members);
      && (installed.Some? <==> tree.Some? && Admitted(w, old(store.disk.base), r.(bundle := Resolved(tree.value))))
      && (installed.Some? ==>
            store.disk == AfterInstall(old(store.disk), installed.value, Resolved(tree.value).value, r.replacePrevious))
  {
    ghost var before := temp.files;
    var outcome := temp.Extract(filtered, dest, members);
    if outcome != Archive.Done {
      return None;
    }
    var tree := At(temp.files, dest);
    Archive.WrittenIsRooted(filtered, before, dest, members);
    PlaceIsRooted(temp.files, dest);
    var bundle := Resolve(tree);
    if bundle.Some? {
      ResolvedIsRooted(tree);
    }
    installed := store.Install(w, r.(bundle := bundle));
  }
}
