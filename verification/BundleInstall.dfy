/**
 Model of install_bundle, prune_inactive_ee_versions, set_active_version and active_bundle_modules_root in
 backend/app/platform/bundle_install.py. Every directory made, file copied, entry removed or marker
 written is one step on the disk, and a crash may come after any of them.
 */
module BundleInstall {
  import opened Text
  import opened BundleChecksums

  /** The tree under extensions/installed/ee, and the diagnostic marker `ee-current`. */
  datatype Disk = Disk(base: Tree, marker: Option<string>)

  const ACTIVE: Path := ["ACTIVE"]
  const MODULES := "modules"

  /** A version that is one path component and is read back from ACTIVE as it was written. */
  predicate IsVersion(v: string) {
    IsName(v) && v !in {".", "..", "ACTIVE"} && Strip(v) == v && Strip(v + "\n") == v
  }

  function Read(data: string): Option<string> {
    if Strip(data) == "" then None else Some(Strip(data))
  }

  function ActiveVersion(base: Tree): Option<string> {
    if ACTIVE in base && base[ACTIVE].File? then Read(base[ACTIVE].data) else None
  }

  function Below(base: Tree, v: string): (r: set<Path>)
    ensures forall q :: q in r <==> q != [] && [v] + q in base
  {
    assert forall p :: p in base && |p| > 1 && p[0] == v ==> [v] + p[1..] == p;
    assert forall q: Path :: q != [] && [v] + q in base ==> ([v] + q)[1..] == q && ([v] + q)[0] == v;
    set p | p in base && |p| > 1 && p[0] == v :: p[1..]
  }

  /** The tree of an installed version. */
  function Sub(base: Tree, v: string): Tree {
    map q | q in Below(base, v) :: base[[v] + q]
  }

  /** What the loader finds through `active_bundle_modules_root`: a version and its whole tree. */
  function Loaded(base: Tree): Option<(string, Tree)> {
    match ActiveVersion(base)
    case None => None
    case Some(v) => if IsDir(base, [v, MODULES]) then Some((v, Sub(base, v))) else None
  }

  // ---- The image a bundle leaves -------------------------------------------------------------

  const COPIED := ["manifest.json", CHECKSUMS, SIGNATURE, MODULES]

  /** The paths under the first `n` copied names. */
  function Named(bundle: Tree, n: nat): set<Path>
    requires n <= |COPIED|
  {
    set p | p in bundle && p != [] && p[0] in COPIED[..n]
  }

  predicate IsCopied(p: Path) {
    p != [] && p[0] in COPIED
  }

  function Image(bundle: Tree): Tree {
    map p | p in bundle && IsCopied(p) :: bundle[p]
  }

  lemma NamedIsImage(bundle: Tree)
    ensures Named(bundle, 4) == Image(bundle).Keys
  {
    assert COPIED[..4] == COPIED;
  }

  /**
   Install-time and boot-time checks agree exactly on bundles that keep every payload file under one of
   the four copied names; with any other payload file the installed copy fails at boot.
   */
  lemma InstalledCopyVerifies(sha: string -> string, bundle: Tree)
    requires ProperPaths(bundle) && Verified(sha, bundle)
    ensures Verified(sha, Image(bundle)) <==> forall p :: p in Payload(bundle) ==> IsCopied(p)
  {
    ImagePayload(bundle);
    if Verified(sha, Image(bundle)) {
      forall p | p in Payload(bundle) { MissingAtBoot(sha, bundle, Expected(bundle).value, p); }
    }
    if forall p :: p in Payload(bundle) ==> IsCopied(p) {
      SamePayloadSameDigests(sha, bundle, Expected(bundle).value);
    }
  }

  lemma ImagePayload(bundle: Tree)
    ensures forall p :: IsPayload(Image(bundle), p) <==> IsPayload(bundle, p) && IsCopied(p)
    ensures Expected(Image(bundle)) == Expected(bundle)
  {
    assert IsCopied([CHECKSUMS]);
  }

  lemma SamePayloadSameDigests(sha: string -> string, bundle: Tree, m: Digests)
    requires Describes(sha, bundle, m) && forall p :: p in Payload(bundle) ==> IsCopied(p)
    ensures Describes(sha, Image(bundle), m)
  {
    assert forall p :: IsPayload(bundle, p) ==> p in Payload(bundle) && IsPayload(Image(bundle), p);
  }

  lemma MissingAtBoot(sha: string -> string, bundle: Tree, m: Digests, p: Path)
    requires ProperPaths(bundle) && Describes(sha, bundle, m) && Describes(sha, Image(bundle), m) && IsPayload(bundle, p)
    ensures IsCopied(p)
  {
    assert Posix(p) in m;
    var q :| IsPayload(Image(bundle), q) && Posix(q) == Posix(p);
    PosixInjective(p, q);
  }

  // ---- The effect of the operations ----------------------------------------------------------

  /** The copies of `paths` under version `v`. */
  function Moved(v: string, bundle: Tree, paths: set<Path>): Tree
    requires paths <= bundle.Keys
  {
    map p | p in MovedPaths(v, paths) :: bundle[p[1..]]
  }

  function MovedPaths(v: string, paths: set<Path>): (r: set<Path>)
    ensures forall p :: p in r ==> p != [] && p[1..] in paths && p[0] == v
  {
    set q | q in paths :: [v] + q
  }

  /** The base with `v` emptied, and with the first `n` names copied into it. */
  function Copied(base: Tree, v: string, bundle: Tree, n: nat): Tree
    requires n <= |COPIED|
  {
    (base - Under(base, v))[[v] := Dir] + Moved(v, bundle, Named(bundle, n))
  }

  function Under(base: Tree, v: string): set<Path> {
    set p | p in base && p != [] && p[0] == v
  }

  function Activate(d: Disk, v: string): Disk {
    Disk(d.base[ACTIVE := File(v + "\n")], Some(v + "\n"))
  }

  /** Everything but the directories of other versions. */
  function Pruned(base: Tree, keep: string): Tree {
    map p | p in base && p != [] && (p[0] == keep || p[0] == "ACTIVE" || !IsDir(base, [p[0]])) :: base[p]
  }

  function AfterInstall(d: Disk, v: string, bundle: Tree, replacePrevious: bool): Disk {
    var active := Activate(d.(base := Copied(d.base, v, bundle, 4)), v);
    if replacePrevious then active.(base := Pruned(active.base, v)) else active
  }

  // In plain words.

  /** The loader finds the version that ACTIVE names, without outer blanks, if it has a `modules` directory. */
  lemma LoadedExactly(base: Tree, v: string, tree: Tree)
    ensures Loaded(base) == Some((v, tree)) <==>
      && ["ACTIVE"] in base && base[["ACTIVE"]] != Dir && Strip(base[["ACTIVE"]].data) == v && v != ""
      && [v, "modules"] in base && base[[v, "modules"]] == Dir && tree == Sub(base, v)
  {
  }

  lemma SubIsBelow(base: Tree, v: string, q: Path)
    ensures q in Sub(base, v) <==> q != [] && [v] + q in base
    ensures q in Sub(base, v) ==> Sub(base, v)[q] == base[[v] + q]
  {
  }

  /** Four names are copied, with everything below them. */
  lemma ImageIs(bundle: Tree, p: Path)
    ensures p in Image(bundle) <==>
      p in bundle && p != [] && p[0] in {"manifest.json", "CHECKSUMS.sha256", "signature", "modules"}
    ensures p in Image(bundle) ==> Image(bundle)[p] == bundle[p]
  {
    assert COPIED[0] in COPIED && COPIED[1] in COPIED && COPIED[2] in COPIED && COPIED[3] in COPIED;
  }

  /** What lies under another name is kept, or, after a replacing install, what is not a directory. */
  ghost predicate StaysOnInstall(base: Tree, replacePrevious: bool, name: string) {
    !replacePrevious || name == "ACTIVE" || !([name] in base && base[[name]] == Dir)
  }

  /**
   The disk after an install: ACTIVE and the marker hold the version and a line feed, the version's directory holds
   the image and nothing else, and beside it is what was there, without the directories if they are replaced.
   */
  lemma AfterInstallIs(d: Disk, v: string, bundle: Tree, replacePrevious: bool, p: Path)
    requires IsVersion(v) && [] !in d.base && p != []
    ensures var after := AfterInstall(d, v, bundle, replacePrevious);
      && after.marker == Some(v + "\n")
      && (p == ["ACTIVE"] ==> p in after.base && after.base[p] == File(v + "\n"))
      && (p == [v] ==> p in after.base && after.base[p] == Dir)
      && (p[0] == v && |p| > 1 ==>
            && (p in after.base <==> p[1..] in Image(bundle))
            && (p in after.base ==> after.base[p] == bundle[p[1..]]))
      && (p[0] != v && p != ["ACTIVE"] ==>
            && (p in after.base <==> p in d.base && StaysOnInstall(d.base, replacePrevious, p[0]))
            && (p in after.base ==> after.base[p] == d.base[p]))
  {
    NamedIsImage(bundle);
    var copied := Copied(d.base, v, bundle, 4);
    CopiedAt(d.base, v, bundle, p);
    CopiedAt(d.base, v, bundle, [p[0]]);
    assert [p[0]] == p || |p| > 1;
  }

  lemma CopiedAt(base: Tree, v: string, bundle: Tree, p: Path)
    requires p != []
    ensures var copied := Copied(base, v, bundle, 4);
      && (p == [v] ==> p in copied && copied[p] == Dir)
      && (p[0] == v && |p| > 1 ==> (p in copied <==> p[1..] in Named(bundle, 4)) && (p in copied ==> copied[p] == bundle[p[1..]]))
      && (p[0] != v ==> (p in copied <==> p in base) && (p in copied ==> copied[p] == base[p]))
  {
    if p[0] == v && |p| > 1 {
      assert p == [v] + p[1..];
    }
  }

  // ---- Requests ------------------------------------------------------------------------------

  datatype Manifest = Manifest(version: string, compat: string)

  /** Hashing, the licence, the signature check, the JSON reader and the semver test. None: the call raises. */
  datatype World = World(
    sha: string -> string, licensed: bool, signed: Tree -> bool,
    manifest: string -> Option<Manifest>, satisfies: string -> Option<bool>)

  /** `bundle` is the resolved source directory, if the source resolves to one. */
  datatype Request = Request(bundle: Option<Tree>, requireLicense: bool, skipCompat: bool, replacePrevious: bool)

  function VersionOf(w: World, bundle: Tree): Option<string> {
    if ["manifest.json"] in bundle && bundle[["manifest.json"]].File? then
      match w.manifest(bundle[["manifest.json"]].data)
      case None => None
      case Some(m) => if Strip(m.version) == "" then None else Some(Strip(m.version))
    else None
  }

  predicate Compatible(w: World, skipCompat: bool, bundle: Tree)
    requires VersionOf(w, bundle).Some?
  {
    var compat := Strip(w.manifest(bundle[["manifest.json"]].data).value.compat);
    skipCompat || compat == "" || w.satisfies(compat) == Some(true)
  }

  /** Every check a bundle has to pass before the disk is touched. */
  ghost predicate Admitted(w: World, base: Tree, r: Request) {
    && (r.requireLicense ==> w.licensed)
    && r.bundle.Some? && Verified(w.sha, r.bundle.value) && w.signed(r.bundle.value)
    && VersionOf(w, r.bundle.value).Some? && Compatible(w, r.skipCompat, r.bundle.value)
    && IsDir(r.bundle.value, [MODULES])
    && ([VersionOf(w, r.bundle.value).value] in base ==> IsDir(base, [VersionOf(w, r.bundle.value).value]))
  }

  /** The bundle's manifest is a file and reads as `m`. */
  ghost predicate ReadsAs(w: World, bundle: Tree, m: Manifest) {
    ["manifest.json"] in bundle && match bundle[["manifest.json"]] case File(data) => w.manifest(data) == Some(m) case Dir => false
  }

  /**
   A bundle whose manifest reads as `m` is admitted exactly when the licence is valid or not asked for, the tree
   verifies and is signed, the version is not blank, the platform satisfies the range unless that is blank or the
   test is skipped, there is a `modules` directory, and no plain file has the version's name.
   */
  lemma AdmittedExactly(w: World, base: Tree, r: Request, m: Manifest)
    requires r.bundle.Some? && ReadsAs(w, r.bundle.value, m)
    ensures Admitted(w, base, r) <==>
      && (w.licensed || !r.requireLicense)
      && Verified(w.sha, r.bundle.value) && w.signed(r.bundle.value)
      && Strip(m.version) != ""
      && (r.skipCompat || Strip(m.compat) == "" || w.satisfies(Strip(m.compat)) == Some(true))
      && ["modules"] in r.bundle.value && r.bundle.value[["modules"]] == Dir
      && ([Strip(m.version)] in base ==> base[[Strip(m.version)]] == Dir)
    ensures Admitted(w, base, r) ==> VersionOf(w, r.bundle.value) == Some(Strip(m.version))
  {
  }

  /** Without a bundle, or without a manifest that reads, nothing is admitted. */
  lemma UnreadableIsRefused(w: World, base: Tree, r: Request)
    requires r.bundle.Some? ==> forall m :: !ReadsAs(w, r.bundle.value, m)
    ensures !Admitted(w, base, r)
  {
    if Admitted(w, base, r) {
      var data := r.bundle.value[["manifest.json"]].data;
      assert ReadsAs(w, r.bundle.value, w.manifest(data).value);
    }
  }

  // ---- The disk, step by step ----------------------------------------------------------------

  ghost predicate SameOutside(v: string, a: Tree, b: Tree) {
    forall p :: p != [] && p[0] != v ==> (p in a <==> p in b) && (p in a ==> a[p] == b[p])
  }

  function Dirs(base: Tree): set<Path> {
    set p | p in base && base[p].Dir?
  }

  /** From step `n` up to `m`, every state differs from `base` only inside `v` and has no directory but those in `dirs`. */
  ghost predicate Between(trace: seq<Disk>, n: nat, m: nat, v: string, base: Tree, dirs: set<Path>) {
    m <= |trace| && forall k :: n <= k < m ==> SameOutside(v, base, trace[k].base) && Dirs(trace[k].base) <= dirs
  }

  ghost predicate Inside(trace: seq<Disk>, n: nat, v: string, base: Tree, dirs: set<Path>) {
    Between(trace, n, |trace|, v, base, dirs)
  }

  /** A directory tree in which the version is a directory if it is there. */
  ghost predicate Tidy(b: Tree, v: string) {
    Rooted(b) && [] !in b && ([v] in b ==> b[[v]].Dir?)
  }

  ghost predicate TidySteps(trace: seq<Disk>, n: nat, v: string) {
    forall k :: n <= k < |trace| ==> Tidy(trace[k].base, v)
  }

  /** A directory tree that holds nothing but what `base` holds. */
  ghost predicate Trimmed(base: Tree, b: Tree) {
    Rooted(b) && forall p :: p in b ==> p in base && b[p] == base[p]
  }

  ghost predicate TrimmedSteps(trace: seq<Disk>, n: nat, base: Tree) {
    forall k :: n <= k < |trace| ==> Trimmed(base, trace[k].base)
  }

  lemma TrimmedIsTidy(trace: seq<Disk>, n: nat, base: Tree, v: string)
    requires Tidy(base, v) && TrimmedSteps(trace, n, base)
    ensures TidySteps(trace, n, v)
  {
  }

  /** Nothing is at or below `name` in the version yet. */
  ghost predicate Vacant(b: Tree, v: string, name: string) {
    forall q :: q in b ==> !([v, name] <= q)
  }

  /** The version is there, and nothing below it. */
  ghost predicate Bare(b: Tree, v: string) {
    [v] in b && forall q :: q in b && q != [] && q[0] == v ==> q == [v]
  }

  lemma InsideMore(trace: seq<Disk>, n: nat, v: string, base: Tree, dirs: set<Path>, d: Disk)
    requires Inside(trace, n, v, base, dirs) && SameOutside(v, base, d.base) && Dirs(d.base) <= dirs
    ensures Inside(trace + [d], n, v, base, dirs)
  {
  }

  /** Work inside one version's directory cannot be seen by the loader of another version. */
  lemma LoadedIgnoresOthers(v: string, a: Tree, b: Tree)
    requires SameOutside(v, a, b) && v != "ACTIVE" && ActiveVersion(a) != Some(v)
    ensures Loaded(b) == Loaded(a) && ActiveVersion(b) == ActiveVersion(a)
  {
    assert ACTIVE[0] != v;
    if ActiveVersion(a).Some? {
      var w := ActiveVersion(a).value;
      assert [w, MODULES][0] != v;
      forall q ensures q in Below(a, w) <==> q in Below(b, w) {
        assert ([w] + q)[0] == w;
      }
      assert Sub(a, w) == Sub(b, w);
    }
  }

  lemma {:induction false} Extremes(s: set<Path>) returns (leaf: Path, top: Path)
    requires s != {}
    ensures leaf in s && forall q :: q in s ==> |q| <= |leaf|
    ensures top in s && forall q :: q in s ==> |top| <= |q|
    decreases |s|
  {
    var p :| p in s;
    if s == {p} {
      leaf, top := p, p;
    } else {
      leaf, top := Extremes(s - {p});
      if |leaf| < |p| { leaf := p; }
      if |p| < |top| { top := p; }
    }
  }

  ghost predicate NoneBelow(s: set<Path>, p: Path) {
    forall q :: q in s ==> !(p < q)
  }

  ghost predicate NoneAbove(s: set<Path>, p: Path) {
    forall q :: q in s ==> !(q < p)
  }

  /** Any entry with nothing of the set below it. */
  method PickLeaf(s: set<Path>) returns (p: Path)
    requires s != {}
    ensures p in s && NoneBelow(s, p)
  {
    ghost var leaf, _ := Extremes(s);
    p :| p in s && forall q :: q in s ==> !(p < q);
  }

  /** Any entry with nothing of the set above it. */
  method PickTop(s: set<Path>) returns (p: Path)
    requires s != {}
    ensures p in s && NoneAbove(s, p)
  {
    ghost var _, top := Extremes(s);
    p :| p in s && forall q :: q in s ==> !(q < p);
  }

  /** `done` is what is copied of one name so far; the name itself comes first. */
  ghost predicate PartCopied(d0: Disk, start: seq<Disk>, d: Disk, trace: seq<Disk>, v: string, bundle: Tree, name: string, done: set<Path>) {
    match d0
    case Disk(base, marker) =>
      && done <= Under(bundle, name) && d == Disk(base + Moved(v, bundle, done), marker)
      && start <= trace && |trace| == |start| + |done|
      && Inside(trace, |start|, v, base, Dirs(base) + MovedPaths(v, Under(bundle, name)))
      && (done != {} ==>
            [name] in done && |trace| > |start| && trace[|start|].base == base[[v, name] := bundle[[name]]])
      && Vacant(base, v, name) && Tidy(d.base, v) && [v] in d.base && TidySteps(trace, |start|, v)
  }

  /** The four names are copied; the steps before `turn` copied all but `modules`. */
  ghost predicate FullCopy(d0: Disk, before: seq<Disk>, d: Disk, trace: seq<Disk>, v: string, bundle: Tree, turn: nat) {
    match d0
    case Disk(base, marker) =>
      && d == Disk(base + Moved(v, bundle, Named(bundle, 4)), marker)
      && before <= trace && |before| <= turn < |trace| && |trace| == turn + |Under(bundle, MODULES)|
      && Inside(trace, |before|, v, base, Dirs(base) + MovedPaths(v, Named(bundle, 4)))
      && Between(trace, |before|, turn, v, base, Dirs(base) + MovedPaths(v, Named(bundle, 3)))
      && trace[turn].base == (base + Moved(v, bundle, Named(bundle, 3)))[[v, MODULES] := Dir]
  }

  class Store {
    var disk: Disk
    ghost var trace: seq<Disk>    // the disk after each step so far

    constructor (disk: Disk)
      ensures this.disk == disk && trace == []
    {
      this.disk := disk;
      trace := [];
    }

    method Put(p: Path, node: Node)
      modifies this
      ensures disk == old(disk).(base := old(disk).base[p := node]) && trace == old(trace) + [disk]
    {
      disk := disk.(base := disk.base[p := node]);
      trace := trace + [disk];
    }

    method Remove(p: Path)
      modifies this
      ensures disk == old(disk).(base := old(disk).base - {p}) && trace == old(trace) + [disk]
    {
      disk := disk.(base := disk.base - {p});
      trace := trace + [disk];
    }

    method WriteMarker(text: string)
      modifies this
      ensures disk == old(disk).(marker := Some(text)) && trace == old(trace) + [disk]
    {
      disk := disk.(marker := Some(text));
      trace := trace + [disk];
    }

    /** `shutil.rmtree`: entries go one by one, none before what is below it. */
    method RmTree(v: string)
      requires Rooted(disk.base)
      modifies this
      ensures disk == old(disk).(base := old(disk).base - Under(old(disk).base, v))
      ensures TrimmedSteps(trace, |old(trace)|, old(disk).base) && Rooted(disk.base)
      ensures old(trace) <= trace && Inside(trace, |old(trace)|, v, old(disk).base, Dirs(old(disk).base))
      ensures Under(old(disk).base, v) != {} ==> |trace| > |old(trace)| && trace[|trace| - 1] == disk
    {
      ghost var d0, n := disk, |trace|;
      var all, gone := Under(disk.base, v), {};
      while gone != all
        invariant gone <= all && disk == d0.(base := d0.base - gone)
        invariant old(trace) <= trace && Inside(trace, n, v, d0.base, Dirs(d0.base))
        invariant gone != {} ==> |trace| > n && trace[|trace| - 1] == disk
        invariant TrimmedSteps(trace, n, d0.base) && Rooted(disk.base)
        decreases all - gone
      {
        var p := PickLeaf(all - gone);
        RemoveOneMore(d0.base, v, gone, p);
        RemoveKeepsRooted(d0.base, v, gone, p);
        ghost var before := trace;
        Remove(p);
        InsideMore(before, n, v, d0.base, Dirs(d0.base), disk);
        gone := gone + {p};
      }
    }

    /** Copies one of the four names, directories before what is in them. */
    method CopyName(v: string, bundle: Tree, name: string)
      requires Rooted(bundle) && Tidy(disk.base, v) && [v] in disk.base && Vacant(disk.base, v, name)
      modifies this
      ensures Tidy(disk.base, v) && [v] in disk.base && TidySteps(trace, |old(trace)|, v)
      ensures disk == old(disk).(base := old(disk).base + Moved(v, bundle, Under(bundle, name)))
      ensures old(trace) <= trace && |trace| == |old(trace)| + |Under(bundle, name)|
      ensures Inside(trace, |old(trace)|, v, old(disk).base, Dirs(old(disk).base) + MovedPaths(v, Under(bundle, name)))
      ensures [name] in bundle ==> |trace| > |old(trace)| && trace[|old(trace)|].base == old(disk).base[[v, name] := bundle[[name]]]
    {
      ghost var d0, start := disk, trace;
      var all, done := Under(bundle, name), {};
      assert MovedPaths(v, {}) == {};
      while done != all
        invariant PartCopied(d0, start, disk, trace, v, bundle, name, done)
        decreases all - done
      {
        var p := PickTop(all - done);
        CopyOneMore(d0, start, disk, trace, v, bundle, name, done, p);
        Put([v] + p, bundle[p]);
        done := done + {p};
      }
      assert [name] in bundle ==> [name] in all;
    }

    /** `rmtree` of the target if it is there, then `mkdir`. */
    method Empty(v: string) returns (ghost gone: nat)
      requires Tidy(disk.base, v)
      modifies this
      ensures Tidy(disk.base, v) && TidySteps(trace, |old(trace)|, v) && Bare(disk.base, v)
      ensures disk == old(disk).(base := (old(disk).base - Under(old(disk).base, v))[[v] := Dir])
      ensures old(trace) <= trace && Inside(trace, |old(trace)|, v, old(disk).base, Dirs(old(disk).base) + {[v]})
      ensures [v] in old(disk).base ==> gone < |trace| && |old(trace)| <= gone && trace[gone].base == old(disk).base - Under(old(disk).base, v)
    {
      ghost var base, n := disk.base, |trace|;
      gone := 0;
      if [v] in disk.base {
        assert [v] in Under(base, v);
        RmTree(v);
        TrimmedIsTidy(trace, n, base, v);
        gone := |trace| - 1;
      } else {
        NothingUnder(base, v);
        assert base - Under(base, v) == base;
      }
      ghost var before := trace;
      EmptiedIsTidy(base, disk.base, v);
      Put([v], Dir);
      InsideMore(before, n, v, base, Dirs(base) + {[v]}, disk);
    }

    method CopyUpTo(v: string, bundle: Tree, count: nat)
      requires Rooted(bundle) && count <= |COPIED| && Tidy(disk.base, v) && Bare(disk.base, v)
      modifies this
      ensures Tidy(disk.base, v) && [v] in disk.base && TidySteps(trace, |old(trace)|, v)
      ensures forall j :: count <= j < |COPIED| ==> Vacant(disk.base, v, COPIED[j])
      ensures disk == old(disk).(base := old(disk).base + Moved(v, bundle, Named(bundle, count)))
      ensures old(trace) <= trace
      ensures Inside(trace, |old(trace)|, v, old(disk).base, Dirs(old(disk).base) + MovedPaths(v, Named(bundle, count)))
    {
      ghost var d0, n := disk, |trace|;
      NamedNone(d0.base, v, bundle);
      BareIsVacant(d0.base, v);
      for i := 0 to count
        invariant disk == d0.(base := d0.base + Moved(v, bundle, Named(bundle, i)))
        invariant old(trace) <= trace && Inside(trace, n, v, d0.base, Dirs(d0.base) + MovedPaths(v, Named(bundle, i)))
        invariant Tidy(disk.base, v) && [v] in disk.base && TidySteps(trace, n, v)
        invariant forall j :: i <= j < |COPIED| ==> Vacant(disk.base, v, COPIED[j])
      {
        ghost var before, b := trace, disk.base;
        CopyName(v, bundle, COPIED[i]);
        NamedMore(d0.base, v, bundle, i);
        ChainName(before, trace, n, v, d0.base, bundle, i);
        NextVacant(b, v, bundle, i);
        TidyChain(before, trace, n, v);
      }
    }

    /** The copy of the four names; `modules` comes last and appears at step `turn`. */
    method CopyAll(v: string, bundle: Tree) returns (ghost turn: nat)
      requires Rooted(bundle) && IsDir(bundle, [MODULES]) && Tidy(disk.base, v) && Bare(disk.base, v)
      modifies this
      ensures Tidy(disk.base, v) && TidySteps(trace, |old(trace)|, v)
      ensures FullCopy(old(disk), old(trace), disk, trace, v, bundle, turn)
    {
      ghost var d0, start := disk, trace;
      CopyUpTo(v, bundle, 3);
      ghost var d1, before := disk, trace;
      turn := |trace|;
      assert Vacant(disk.base, v, COPIED[3]);
      CopyName(v, bundle, MODULES);
      TidyChain(before, trace, |start|, v);
      LastNameCopied(d0, start, d1, before, disk, trace, v, bundle);
    }

    method Place(v: string, bundle: Tree) returns (ghost gone: nat, ghost turn: nat)
      requires Tidy(disk.base, v) && Rooted(bundle) && IsDir(bundle, [MODULES])
      modifies this
      ensures Tidy(disk.base, v) && TidySteps(trace, |old(trace)|, v)
      ensures disk == old(disk).(base := Copied(old(disk).base, v, bundle, 4))
      ensures old(trace) <= trace && |old(trace)| <= turn < |trace| && |trace| == turn + |Under(bundle, MODULES)|
      ensures forall k :: |old(trace)| <= k < |trace| ==> SameOutside(v, old(disk).base, trace[k].base)
      ensures Between(trace, |old(trace)|, turn, v, old(disk).base, Dirs(old(disk).base) + {[v]} + MovedPaths(v, Named(bundle, 3)))
      ensures trace[turn].base == Copied(old(disk).base, v, bundle, 3)[[v, MODULES] := Dir]
      ensures [v] in old(disk).base ==> gone < |trace| && |old(trace)| <= gone && trace[gone].base == old(disk).base - Under(old(disk).base, v)
    {
      ghost var d0, n := disk, |trace|;
      gone := Empty(v);
      ghost var b1, m, t1 := disk.base, |trace|, trace;
      turn := CopyAll(v, bundle);
      TidyChain(t1, trace, n, v);
      assert SameOutside(v, d0.base, b1);
      InsideChain(trace, n, m, turn, v, d0.base, b1, Dirs(d0.base) + {[v]} + MovedPaths(v, Named(bundle, 3)));
      InsideChain(trace, n, m, |trace|, v, d0.base, b1, Dirs(d0.base) + {[v]} + MovedPaths(v, Named(bundle, 4)));
    }

    /** Points ACTIVE and then the marker at an installed version. */
    method SetActive(version: string) returns (ok: bool)
      requires Strip(version) != "" ==> IsVersion(Strip(version))
      requires !IsDir(disk.base, ACTIVE)
      modifies this
      ensures ok <==> Strip(version) != "" && Installed(old(disk).base, Strip(version))
      ensures !ok ==> disk == old(disk) && trace == old(trace)
      ensures Effect(old(disk), disk)
      ensures ok ==> disk == Activate(old(disk), Strip(version)) && trace == old(trace) + [disk.(marker := old(disk).marker), disk]
    {
      var v := Strip(version);
      if v == "" || !IsDir(disk.base, [v]) || !IsDir(disk.base, [v, MODULES]) { return false; }
      Put(ACTIVE, File(v + "\n"));
      WriteMarker(v + "\n");
      return true;
    }

    /** Removes every version directory but `keep`; the loader keeps its view exactly when `keep` is active. */
    method Prune(keep: string) returns (removed: seq<string>)
      requires Rooted(disk.base) && [] !in disk.base && !IsDir(disk.base, ACTIVE)
      modifies this
      ensures Strip(keep) == "" ==> disk == old(disk) && trace == old(trace) && removed == []
      ensures Strip(keep) != "" ==>
                && disk == old(disk).(base := Pruned(old(disk).base, Strip(keep)))
                && Loaded(disk.base) == (if ActiveVersion(old(disk).base) == Some(Strip(keep)) then Loaded(old(disk).base) else None)
                && Ascending(StrLt, removed) && (forall v :: v in removed <==> v in Versions(old(disk).base) && v != Strip(keep))
      ensures old(trace) <= trace && LoppedSteps(trace, |old(trace)|, old(disk).base, Strip(keep))
      ensures ActiveVersion(old(disk).base) == Some(Strip(keep)) ==>
                forall k :: |old(trace)| <= k < |trace| ==> Loaded(trace[k].base) == Loaded(old(disk).base)
    {
      var v := Strip(keep);
      if v == "" { return []; }
      ghost var d0, n := disk, |trace|;
      var children := Versions(disk.base) - {v};
      var done: set<string> := {};
      var names: seq<string> := [];
      assert Without(d0.base, {}) == d0.base;
      while done != children
        invariant done <= children && "ACTIVE" !in done && disk == d0.(base := Without(d0.base, done))
        invariant forall x :: x in names <==> x in done
        invariant old(trace) <= trace && LoppedSteps(trace, n, d0.base, v) && Lopped(d0.base, disk.base, v)
        invariant ActiveVersion(d0.base) == Some(v) ==> forall k :: n <= k < |trace| ==> Loaded(trace[k].base) == Loaded(d0.base)
        decreases children - done
      {
        assert children - done != {};
        var child :| child in children - done;
        VersionIsDir(d0.base, child);
        ghost var b1, m, before := disk.base, |trace|, trace;
        RmTree(child);
        LoppedChain(before, trace, n, d0.base, b1, v, child);
        WithoutMore(d0.base, done, child);
        KeepsView(trace, m, d0.base, done, v, child);
        done := done + {child};
        LoppedWithout(d0.base, done, v);
        names := names + [child];
      }
      removed := SortedSet(StrLt, names);
      StrLtIsTotalOrder();
      SortedSetAscending(StrLt, names);
      WithoutOthersIsPruned(d0.base, v);
      PrunedLoads(d0.base, v);
    }

    /** The checks, in the order the installer makes them. */
    method Check(w: World, r: Request) returns (version: Option<string>)
      ensures version.Some? <==> Admitted(w, disk.base, r)
      ensures version.Some? ==> version == VersionOf(w, r.bundle.value)
    {
      if r.requireLicense && !w.licensed { return None; }
      if r.bundle.None? { return None; }
      var bundle := r.bundle.value;
      var verdict := VerifyChecksums(w.sha, bundle);
      if verdict != Report([]) { return None; }
      if !w.signed(bundle) { return None; }
      version := VersionOf(w, bundle);
      if version.None? || !Compatible(w, r.skipCompat, bundle) { return None; }
      if !IsDir(bundle, [MODULES]) { return None; }
      // rmtree raises on a plain file of that name
      if [version.value] in disk.base && !IsDir(disk.base, [version.value]) { return None; }
    }

    method PlaceImage(v: string, bundle: Tree)
      requires Sane(disk.base) && Tidy(disk.base, v) && Rooted(bundle) && IsDir(bundle, [MODULES]) && IsVersion(v)
      modifies this
      ensures disk == old(disk).(base := Copied(old(disk).base, v, bundle, 4)) && old(trace) <= trace
      ensures Installed(disk.base, v) && Sub(disk.base, v) == Image(bundle) && Tidy(disk.base, v) && SameOutside(v, old(disk).base, disk.base)
      ensures forall k :: |old(trace)| <= k < |trace| ==> Tidy(trace[k].base, v) && SameOutside(v, old(disk).base, trace[k].base)
      ensures CrashSafe(old(disk).base, v, bundle) <==>
              forall k :: |old(trace)| <= k < |trace| ==> Whole(old(disk).base, v, bundle, trace[k].base)
    {
      ghost var base, n := disk.base, |trace|;
      ghost var gone, turn := Place(v, bundle);
      CopyIsImage(base, v, bundle);
      CrashPoints(base, v, bundle, trace, n, gone, turn);
    }

    /** From the write of ACTIVE on, the loader sees the new version at every step. */
    method ActivateAndPrune(v: string, replacePrevious: bool)
      requires Tidy(disk.base, v) && IsVersion(v) && Installed(disk.base, v) && !IsDir(disk.base, ACTIVE)
      modifies this
      ensures disk == (var d := Activate(old(disk), v); if replacePrevious then d.(base := Pruned(d.base, v)) else d)
      ensures old(trace) <= trace
      ensures forall k :: |old(trace)| <= k < |trace| ==>
        Loaded(trace[k].base) == Some((v, Sub(old(disk).base, v))) && Resumable(old(disk).base, trace[k].base, v, replacePrevious)
    {
      ghost var b := disk.base;
      ActivatingLoads(b, v);
      ActivatingResumable(b, v, replacePrevious);
      var ok := SetActive(v);
      if replacePrevious {
        ghost var t2, n2 := trace, |trace|;
        var removed := Prune(v);
        assert forall k :: 0 <= k < n2 ==> trace[k] == t2[k];
        LoppedResumable(trace, n2, b, v);
      }
    }

    /** Place, activate, prune. Only the steps of the copy can leave a crash with a partial tree. */
    method Switch(v: string, bundle: Tree, replacePrevious: bool)
      requires Sane(disk.base) && Tidy(disk.base, v) && Rooted(bundle) && IsDir(bundle, [MODULES]) && IsVersion(v)
      modifies this
      ensures disk == AfterInstall(old(disk), v, bundle, replacePrevious) && old(trace) <= trace
      ensures CrashSafe(old(disk).base, v, bundle) <==>
              forall k :: |old(trace)| <= k < |trace| ==> Whole(old(disk).base, v, bundle, trace[k].base)
      ensures ResumableSteps(trace, |old(trace)|, old(disk).base, v, replacePrevious)
    {
      ghost var base, n := disk.base, |trace|;
      PlaceImage(v, bundle);
      ghost var t1, b1 := trace, disk.base;
      ActiveSame(v, base, b1);
      ActivateAndPrune(v, replacePrevious);
      SafetyDecidedByCopy(base, v, bundle, t1, trace, n);
      ResumableThroughout(base, b1, v, replacePrevious, t1, trace, n);
    }

    /**
     Either the request is refused and nothing changed, or the bundle's version is installed and active.
     A crash after any step leaves the loader with the tree it had, or with the complete new one, exactly
     when `CrashSafe` holds beforehand; and it leaves a disk from which the installation can be repeated.
     */
    method Install(w: World, r: Request) returns (installed: Option<string>)
      requires Sane(disk.base)
      requires r.bundle.Some? ==> Rooted(r.bundle.value)
      requires r.bundle.Some? && VersionOf(w, r.bundle.value).Some? ==> IsVersion(VersionOf(w, r.bundle.value).value)
      modifies this
      ensures Effect(old(disk), disk)
      ensures installed.Some? <==> Admitted(w, old(disk).base, r)
      ensures installed.None? ==> disk == old(disk) && trace == old(trace)
      ensures forall m :: r.bundle.Some? && ReadsAs(w, r.bundle.value, m) ==>
                (installed == Some(Strip(m.version)) <==>
                  && (w.licensed || !r.requireLicense) && Verified(w.sha, r.bundle.value) && w.signed(r.bundle.value)
                  && Strip(m.version) != ""
                  && (r.skipCompat || Strip(m.compat) == "" || w.satisfies(Strip(m.compat)) == Some(true))
                  && IsDir(r.bundle.value, ["modules"])
                  && ([Strip(m.version)] in old(disk).base ==> IsDir(old(disk).base, [Strip(m.version)])))
      ensures forall m :: r.bundle.Some? && ReadsAs(w, r.bundle.value, m) ==>
                (!r.skipCompat && Strip(m.compat) != "" && w.satisfies(Strip(m.compat)) != Some(true) ==> installed == None)
      ensures installed.Some? ==>
                && installed == VersionOf(w, r.bundle.value)
                && disk == AfterInstall(old(disk), installed.value, r.bundle.value, r.replacePrevious)
                && old(trace) <= trace
                && (CrashSafe(old(disk).base, installed.value, r.bundle.value) <==>
                    forall k :: |old(trace)| <= k < |trace| ==>
                      Whole(old(disk).base, installed.value, r.bundle.value, trace[k].base))
                && ResumableSteps(trace, |old(trace)|, old(disk).base, installed.value, r.replacePrevious)
    {
      installed := Check(w, r);
      if r.bundle.Some? {
        forall m | ReadsAs(w, r.bundle.value, m) { AdmittedExactly(w, disk.base, r, m); }
      }
      if installed.Some? {
        Switch(installed.value, r.bundle.value, r.replacePrevious);
        assert Installs(old(disk), disk, installed.value, r.bundle.value, r.replacePrevious);
      }
    }
  }

  /** After the copy every state loads the new version, so the copy decides. */
  lemma SafetyDecidedByCopy(base: Tree, v: string, bundle: Tree, t1: seq<Disk>, trace: seq<Disk>, n: nat)
    requires n <= |t1| && t1 <= trace
    requires CrashSafe(base, v, bundle) <==> forall k :: n <= k < |t1| ==> Whole(base, v, bundle, t1[k].base)
    requires forall k :: |t1| <= k < |trace| ==> Loaded(trace[k].base) == Some((v, Image(bundle)))
    ensures CrashSafe(base, v, bundle) <==> forall k :: n <= k < |trace| ==> Whole(base, v, bundle, trace[k].base)
  {
    assert forall k :: 0 <= k < |t1| ==> t1[k] == trace[k];
    assert forall k :: |t1| <= k < |trace| ==> Whole(base, v, bundle, trace[k].base);
  }

  // ---- Crash points --------------------------------------------------------------------------

  /** The state of the installed tree between calls. */
  ghost predicate Sane(base: Tree) {
    && Rooted(base) && [] !in base && !IsDir(base, ACTIVE)
    && (ActiveVersion(base).Some? ==> IsVersion(ActiveVersion(base).value))
  }

  /** The loader sees what it saw at the start, or the whole new version. */
  ghost predicate Whole(start: Tree, v: string, bundle: Tree, base: Tree) {
    Loaded(base) == Loaded(start) || Loaded(base) == Some((v, Image(bundle)))
  }

  /**
   The version to install is not the active one. (If ACTIVE names it while it is not installed, a bundle
   with nothing under `modules` is also safe.)
   */
  predicate CrashSafe(base: Tree, v: string, bundle: Tree) {
    ActiveVersion(base) != Some(v) || (Loaded(base).None? && Under(bundle, MODULES) == {[MODULES]})
  }

  lemma ActiveSame(v: string, a: Tree, b: Tree)
    requires SameOutside(v, a, b) && v != "ACTIVE"
    ensures ActiveVersion(b) == ActiveVersion(a) && (IsDir(b, ACTIVE) <==> IsDir(a, ACTIVE))
  {
    assert ACTIVE[0] == "ACTIVE";
  }

  /** The tree of a version from its entries. */
  lemma SubIs(b: Tree, v: string, m: Tree)
    requires [] !in m
    requires forall q: Path :: q != [] ==> ([v] + q in b <==> q in m) && ([v] + q in b ==> b[[v] + q] == m[q])
    ensures Sub(b, v) == m
  {
    assert forall q :: q in Below(b, v) <==> q in m;
  }

  lemma ActivatingKeepsTrees(b: Tree, v: string, node: Node)
    requires v != "ACTIVE"
    ensures Sub(b[ACTIVE := node], v) == Sub(b, v)
    ensures IsDir(b[ACTIVE := node], [v, MODULES]) <==> IsDir(b, [v, MODULES])
  {
    assert forall q :: ([v] + q)[0] == v;
    assert ACTIVE[0] == "ACTIVE" && [v, MODULES][0] == v;
    assert Below(b[ACTIVE := node], v) == Below(b, v);
  }

  /** After the copy the version is there, and whole. */
  lemma CopyIsImage(base: Tree, v: string, bundle: Tree)
    requires Rooted(bundle) && IsDir(bundle, [MODULES])
    ensures Installed(Copied(base, v, bundle, 4), v) && Sub(Copied(base, v, bundle, 4), v) == Image(bundle)
    ensures SameOutside(v, base, Copied(base, v, bundle, 4))
  {
    CopiedHolds(base, v, bundle, 4);
    NamedIsImage(bundle);
    assert IsCopied([MODULES]);
    assert [v] + [MODULES] == [v, MODULES];
    SubIs(Copied(base, v, bundle, 4), v, Image(bundle));
  }

  /** Once ACTIVE names a whole version, that is what is loaded. */
  lemma ActivatingLoads(b: Tree, v: string)
    requires IsVersion(v) && Installed(b, v)
    ensures ActiveVersion(b[ACTIVE := File(v + "\n")]) == Some(v)
    ensures Loaded(b[ACTIVE := File(v + "\n")]) == Some((v, Sub(b, v)))
  {
    ActivatingKeepsTrees(b, v, File(v + "\n"));
  }

  /** What is under `v` after copying the first `n` names. */
  lemma CopiedHolds(base: Tree, v: string, bundle: Tree, n: nat)
    requires n <= |COPIED|
    ensures forall q: Path :: q != [] ==>
      var b := Copied(base, v, bundle, n);
      ([v] + q in b <==> q in Named(bundle, n)) && ([v] + q in b ==> b[[v] + q] == bundle[q])
    ensures [v] in Copied(base, v, bundle, n) && Copied(base, v, bundle, n)[[v]] == Dir
  {
    var moved := MovedPaths(v, Named(bundle, n));
    assert [] !in Named(bundle, n);
    forall q: Path | q != []
      ensures var b := Copied(base, v, bundle, n);
        ([v] + q in b <==> q in Named(bundle, n)) && ([v] + q in b ==> b[[v] + q] == bundle[q])
    {
      assert ([v] + q)[1..] == q && ([v] + q)[0] == v;
    }
    assert [v][1..] == [];
  }

  lemma ModulesLast(bundle: Tree)
    ensures [MODULES] !in Named(bundle, 3) && (forall p :: p in Under(bundle, MODULES) ==> p !in Named(bundle, 3))
  {
    assert MODULES !in COPIED[..3];
  }

  /** Which crash points during the copy are harmless. */
  lemma CrashPoints(base: Tree, v: string, bundle: Tree, trace: seq<Disk>, n: nat, gone: nat, turn: nat)
    requires Sane(base) && Rooted(bundle) && IsDir(bundle, [MODULES]) && IsVersion(v)
    requires n <= turn < |trace| && |trace| == turn + |Under(bundle, MODULES)|
    requires forall k :: n <= k < |trace| ==> SameOutside(v, base, trace[k].base)
    requires Between(trace, n, turn, v, base, Dirs(base) + {[v]} + MovedPaths(v, Named(bundle, 3)))
    requires trace[turn].base == Copied(base, v, bundle, 3)[[v, MODULES] := Dir]
    requires [v] in base ==> gone < |trace| && n <= gone && trace[gone].base == base - Under(base, v)
    ensures CrashSafe(base, v, bundle) <==> forall k :: n <= k < |trace| ==> Whole(base, v, bundle, trace[k].base)
  {
    if ActiveVersion(base) != Some(v) {
      forall k | n <= k < |trace| ensures Whole(base, v, bundle, trace[k].base) {
        LoadedIgnoresOthers(v, base, trace[k].base);
      }
    } else if Loaded(base).Some? {
      GoneIsNoticed(base, v, bundle);
      assert !Whole(base, v, bundle, trace[gone].base);
    } else {
      TurnLoads(base, v, bundle);
      if Under(bundle, MODULES) == {[MODULES]} {
        forall k | n <= k < |trace| ensures Whole(base, v, bundle, trace[k].base) {
          if k < turn {
            NoModulesNotLoaded(base, v, bundle, trace[k].base);
          } else {
            assert k == turn;
          }
        }
      } else {
        assert !Whole(base, v, bundle, trace[turn].base);
      }
    }
  }

  /** Emptying the active version takes away what was loaded. */
  lemma GoneIsNoticed(base: Tree, v: string, bundle: Tree)
    requires Sane(base) && ActiveVersion(base) == Some(v) && Loaded(base).Some?
    ensures [v] in base && !Whole(base, v, bundle, base - Under(base, v))
  {
    assert [v, MODULES] in base;
    assert ParentIsDir(base, [v, MODULES]);
    assert [v, MODULES][..1] == [v];
    assert ACTIVE[0] == "ACTIVE" != v;
    assert [v, MODULES] in Under(base, v);
  }

  lemma NoModulesNotLoaded(base: Tree, v: string, bundle: Tree, b: Tree)
    requires v != "ACTIVE" && ActiveVersion(base) == Some(v) && Loaded(base).None?
    requires SameOutside(v, base, b) && Dirs(b) <= Dirs(base) + {[v]} + MovedPaths(v, Named(bundle, 3))
    ensures Loaded(b) == Loaded(base)
  {
    ActiveSame(v, base, b);
    ModulesLast(bundle);
    assert [v, MODULES][1..] == [MODULES];
    assert !IsDir(base, [v, MODULES]);
    assert [v, MODULES] !in Dirs(base) + {[v]} + MovedPaths(v, Named(bundle, 3));
  }

  /** The first three names, and `modules` without its contents. */
  ghost function Started(bundle: Tree): Tree {
    (map p | p in Named(bundle, 3) :: bundle[p])[[MODULES] := Dir]
  }

  lemma StartedTree(base: Tree, v: string, bundle: Tree)
    ensures Sub(Copied(base, v, bundle, 3)[[v, MODULES] := Dir], v) == Started(bundle)
  {
    var b := Copied(base, v, bundle, 3)[[v, MODULES] := Dir];
    CopiedHolds(base, v, bundle, 3);
    forall q: Path | q != []
      ensures ([v] + q in b <==> q in Started(bundle)) && ([v] + q in b ==> b[[v] + q] == Started(bundle)[q])
    {
      assert ([v] + q)[1..] == q && [v, MODULES][1..] == [MODULES];
      assert [v] + [MODULES] == [v, MODULES];
    }
    SubIs(b, v, Started(bundle));
  }

  lemma StartedIsImage(bundle: Tree)
    requires Rooted(bundle) && IsDir(bundle, [MODULES])
    ensures Started(bundle) == Image(bundle) <==> Under(bundle, MODULES) == {[MODULES]}
  {
    NamedIsImage(bundle);
    NamedNext(bundle, 3);
    ModulesLast(bundle);
    assert [MODULES] in Under(bundle, MODULES);
    if Under(bundle, MODULES) == {[MODULES]} {
      assert Started(bundle).Keys == Image(bundle).Keys;
    } else {
      var p :| p in Under(bundle, MODULES) && p != [MODULES];
      assert p in Image(bundle) && p !in Started(bundle);
    }
  }

  /** When `modules` appears under a version that ACTIVE already names, the part copied so far is loaded. */
  lemma TurnLoads(base: Tree, v: string, bundle: Tree)
    requires v != "ACTIVE" && Rooted(bundle) && IsDir(bundle, [MODULES])
    requires ActiveVersion(base) == Some(v) && Loaded(base).None?
    requires SameOutside(v, base, Copied(base, v, bundle, 3)[[v, MODULES] := Dir])
    ensures Whole(base, v, bundle, Copied(base, v, bundle, 3)[[v, MODULES] := Dir]) <==> Under(bundle, MODULES) == {[MODULES]}
  {
    var b := Copied(base, v, bundle, 3)[[v, MODULES] := Dir];
    ActiveSame(v, base, b);
    StartedTree(base, v, bundle);
    StartedIsImage(bundle);
    assert Loaded(b) == Some((v, Started(bundle)));
  }

  predicate Installed(base: Tree, v: string) {
    IsDir(base, [v]) && IsDir(base, [v, MODULES])
  }

  /** The version directories. */
  function Versions(base: Tree): set<string> {
    set p | p in base && |p| == 1 && base[p].Dir? :: p[0]
  }

  lemma VersionIsDir(base: Tree, v: string)
    ensures v in Versions(base) <==> IsDir(base, [v])
  {
    if v in Versions(base) {
      var p :| p in base && |p| == 1 && base[p].Dir? && p[0] == v;
      assert p == [v];
    }
  }

  function Without(base: Tree, versions: set<string>): Tree {
    map p | p in base && (p == [] || p[0] !in versions) :: base[p]
  }

  lemma WithoutMore(base: Tree, versions: set<string>, v: string)
    ensures Without(base, versions) - Under(Without(base, versions), v) == Without(base, versions + {v})
  {
  }

  /** Removing other versions is invisible to the loader of `keep`. */
  lemma WithoutKeepsActive(base: Tree, versions: set<string>, keep: string)
    requires ActiveVersion(base) == Some(keep) && keep !in versions && "ACTIVE" !in versions
    ensures ActiveVersion(Without(base, versions)) == Some(keep) && Loaded(Without(base, versions)) == Loaded(base)
  {
    assert ACTIVE[0] == "ACTIVE";
    var after := Without(base, versions);
    assert forall q :: ([keep] + q)[0] == keep;
    assert Below(base, keep) == Below(after, keep);
    assert Sub(base, keep) == Sub(after, keep);
    assert [keep, MODULES][0] == keep;
  }

  lemma WithoutOthersIsPruned(base: Tree, keep: string)
    requires [] !in base && !IsDir(base, ACTIVE)
    ensures Without(base, Versions(base) - {keep}) == Pruned(base, keep)
  {
    VersionIsDir(base, "ACTIVE");
    forall p | p in base { VersionIsDir(base, p[0]); }
  }

  /** Steps inside `v` after steps inside `v`. */
  lemma InsideChain(trace: seq<Disk>, n: nat, m: nat, end: nat, v: string, a: Tree, b: Tree, dirs: set<Path>)
    requires n <= m <= end && SameOutside(v, a, b)
    requires Between(trace, n, m, v, a, dirs) && Between(trace, m, end, v, b, dirs)
    ensures Between(trace, n, end, v, a, dirs)
  {
    forall k | n <= k < end ensures SameOutside(v, a, trace[k].base) && Dirs(trace[k].base) <= dirs {
      if k >= m { SameOutsideTransitive(v, a, b, trace[k].base); }
    }
  }

  /** The steps that copy name number `i`, after the steps `before` that copied the names in front of it. */
  lemma ChainName(before: seq<Disk>, trace: seq<Disk>, n: nat, v: string, base: Tree, bundle: Tree, i: nat)
    requires i < |COPIED| && n <= |before| && before <= trace
    requires Inside(before, n, v, base, Dirs(base) + MovedPaths(v, Named(bundle, i)))
    requires var mid := base + Moved(v, bundle, Named(bundle, i));
      Inside(trace, |before|, v, mid, Dirs(mid) + MovedPaths(v, Under(bundle, COPIED[i])))
    ensures Between(trace, n, |before|, v, base, Dirs(base) + MovedPaths(v, Named(bundle, i)))
    ensures Inside(trace, n, v, base, Dirs(base) + MovedPaths(v, Named(bundle, i + 1)))
  {
    var mid, m := base + Moved(v, bundle, Named(bundle, i)), |before|;
    var dirs, wider := Dirs(base) + MovedPaths(v, Named(bundle, i)), Dirs(base) + MovedPaths(v, Named(bundle, i + 1));
    NamedMore(base, v, bundle, i);
    assert forall k :: 0 <= k < m ==> before[k] == trace[k];
    assert dirs <= wider;
    Widen(trace, n, m, v, base, dirs, wider);
    Widen(trace, m, |trace|, v, mid, Dirs(mid) + MovedPaths(v, Under(bundle, COPIED[i])), wider);
    InsideChain(trace, n, m, |trace|, v, base, mid, wider);
  }

  lemma CopyOneMore(d0: Disk, start: seq<Disk>, d: Disk, trace: seq<Disk>, v: string, bundle: Tree, name: string, done: set<Path>, p: Path)
    requires Rooted(bundle) && PartCopied(d0, start, d, trace, v, bundle, name, done)
    requires p in Under(bundle, name) - done && NoneAbove(Under(bundle, name) - done, p)
    ensures var d' := d.(base := d.base[[v] + p := bundle[p]]);
      PartCopied(d0, start, d', trace + [d'], v, bundle, name, done + {p})
  {
    var all, d' := Under(bundle, name), d.(base := d.base[[v] + p := bundle[p]]);
    if done == {} {
      assert all - done == all;
      FirstIsTheName(bundle, name, p);
    }
    MovedMore(d0.base, v, bundle, all, done, p);
    InsideMore(trace, |start|, v, d0.base, Dirs(d0.base) + MovedPaths(v, all), d');
    CopyKeepsTidy(d0.base, v, bundle, name, done, p);
    TidyMore(trace, |start|, v, d');
  }

  lemma TidyMore(trace: seq<Disk>, n: nat, v: string, d: Disk)
    requires TidySteps(trace, n, v) && Tidy(d.base, v)
    ensures TidySteps(trace + [d], n, v)
  {
  }

  lemma BareIsVacant(b: Tree, v: string)
    requires Bare(b, v)
    ensures forall j :: 0 <= j < |COPIED| ==> Vacant(b, v, COPIED[j])
  {
    forall j, q | 0 <= j < |COPIED| && q in b ensures !([v, COPIED[j]] <= q) {
      assert q != [] && q[0] == v ==> |q| == 1;
    }
  }

  lemma EmptiedIsTidy(base: Tree, b: Tree, v: string)
    requires Tidy(base, v) && b == base - Under(base, v) && Rooted(b)
    ensures Tidy(b[[v] := Dir], v) && Bare(b[[v] := Dir], v)
  {
    var b' := b[[v] := Dir];
    forall q | q in b' ensures ParentIsDir(b', q) {
      assert q in b ==> ParentIsDir(b, q);
    }
  }

  /** A parent is copied before what is in it. */
  lemma CopyKeepsTidy(base: Tree, v: string, bundle: Tree, name: string, done: set<Path>, p: Path)
    requires Rooted(bundle) && Vacant(base, v, name) && done <= Under(bundle, name)
    requires p in Under(bundle, name) - done && NoneAbove(Under(bundle, name) - done, p)
    requires Tidy(base + Moved(v, bundle, done), v) && [v] in base + Moved(v, bundle, done)
    ensures Tidy((base + Moved(v, bundle, done))[[v] + p := bundle[p]], v)
  {
    var b, at := base + Moved(v, bundle, done), [v] + p;
    var b' := b[at := bundle[p]];
    NotThereYet(base, v, bundle, name, done, p);
    assert at != [v];
    forall q | q in b' ensures ParentIsDir(b', q) {
      if q != at {
        assert ParentIsDir(b, q);
      } else if |p| == 1 {
        assert at[..|at| - 1] == [v];
      } else {
        ParentCopied(base, v, bundle, name, done, p);
      }
    }
  }

  lemma NotThereYet(base: Tree, v: string, bundle: Tree, name: string, done: set<Path>, p: Path)
    requires Vacant(base, v, name) && done <= Under(bundle, name) && p in Under(bundle, name) - done
    ensures [v] + p !in base + Moved(v, bundle, done)
  {
    assert [v, name] <= [v] + p;
    assert ([v] + p)[1..] == p;
  }

  lemma ParentCopied(base: Tree, v: string, bundle: Tree, name: string, done: set<Path>, p: Path)
    requires Rooted(bundle) && done <= Under(bundle, name) && p in Under(bundle, name) - done && |p| > 1
    requires NoneAbove(Under(bundle, name) - done, p)
    ensures IsDir(base + Moved(v, bundle, done), ([v] + p)[..|p|])
  {
    var parent := p[..|p| - 1];
    assert ParentIsDir(bundle, p);
    assert parent < p && parent in Under(bundle, name);
    assert parent !in Under(bundle, name) - done;
    assert ([v] + p)[..|p|] == [v] + parent;
    assert ([v] + parent)[1..] == parent;
  }

  lemma TidyChain(before: seq<Disk>, trace: seq<Disk>, n: nat, v: string)
    requires before <= trace && TidySteps(before, n, v) && TidySteps(trace, |before|, v)
    ensures TidySteps(trace, n, v)
  {
    assert forall k :: 0 <= k < |before| ==> before[k] == trace[k];
  }

  lemma NextVacant(b: Tree, v: string, bundle: Tree, i: nat)
    requires i < |COPIED| && forall j :: i <= j < |COPIED| ==> Vacant(b, v, COPIED[j])
    ensures forall j :: i < j < |COPIED| ==> Vacant(b + Moved(v, bundle, Under(bundle, COPIED[i])), v, COPIED[j])
  {
    forall j | i < j < |COPIED| ensures Vacant(b + Moved(v, bundle, Under(bundle, COPIED[i])), v, COPIED[j]) {
      NamesDiffer(i, j);
      VacantStays(b, v, bundle, COPIED[i], COPIED[j]);
    }
  }

  lemma NamesDiffer(i: nat, j: nat)
    requires i < j < |COPIED|
    ensures COPIED[i] != COPIED[j]
  {
  }

  lemma VacantStays(base: Tree, v: string, bundle: Tree, name: string, other: string)
    requires name != other && Vacant(base, v, other)
    ensures Vacant(base + Moved(v, bundle, Under(bundle, name)), v, other)
  {
    forall q | q in MovedPaths(v, Under(bundle, name)) ensures !([v, other] <= q) {
      assert q[1] == q[1..][0] == name;
      assert [v, other][1] == other;
    }
  }

  lemma LastNameCopied(d0: Disk, start: seq<Disk>, d1: Disk, before: seq<Disk>, d: Disk, trace: seq<Disk>, v: string, bundle: Tree)
    requires IsDir(bundle, [MODULES]) && start <= before <= trace
    requires d1 == d0.(base := d0.base + Moved(v, bundle, Named(bundle, 3)))
    requires d == d1.(base := d1.base + Moved(v, bundle, Under(bundle, MODULES)))
    requires |trace| == |before| + |Under(bundle, MODULES)| && |before| < |trace|
    requires Inside(before, |start|, v, d0.base, Dirs(d0.base) + MovedPaths(v, Named(bundle, 3)))
    requires Inside(trace, |before|, v, d1.base, Dirs(d1.base) + MovedPaths(v, Under(bundle, MODULES)))
    requires trace[|before|].base == d1.base[[v, MODULES] := bundle[[MODULES]]]
    ensures FullCopy(d0, start, d, trace, v, bundle, |before|)
  {
    assert COPIED[3] == MODULES;
    NamedMore(d0.base, v, bundle, 3);
    ChainName(before, trace, |start|, v, d0.base, bundle, 3);
  }

  lemma Widen(trace: seq<Disk>, n: nat, m: nat, v: string, base: Tree, dirs: set<Path>, wider: set<Path>)
    requires Between(trace, n, m, v, base, dirs) && dirs <= wider
    ensures Between(trace, n, m, v, base, wider)
  {
  }

  lemma SameOutsideTransitive(v: string, a: Tree, b: Tree, c: Tree)
    requires SameOutside(v, a, b) && SameOutside(v, b, c)
    ensures SameOutside(v, a, c)
  {
  }

  lemma {:induction false} FirstComponentExists(tree: Tree, p: Path)
    requires Rooted(tree) && p in tree && p != []
    ensures [p[0]] in tree
    decreases |p|
  {
    assert ParentIsDir(tree, p);
    if |p| > 1 {
      FirstComponentExists(tree, p[..|p| - 1]);
    } else {
      assert p == [p[0]];
    }
  }

  lemma FirstIsTheName(tree: Tree, name: string, p: Path)
    requires Rooted(tree) && p in Under(tree, name) && NoneAbove(Under(tree, name), p)
    ensures p == [name]
  {
    FirstComponentExists(tree, p);
    assert [name] in Under(tree, name);
    assert [name] <= p;
  }

  lemma MovedMore(base: Tree, v: string, bundle: Tree, all: set<Path>, paths: set<Path>, p: Path)
    requires paths <= all <= bundle.Keys && p in all
    ensures base + Moved(v, bundle, paths + {p}) == (base + Moved(v, bundle, paths))[[v] + p := bundle[p]]
    ensures SameOutside(v, base, base + Moved(v, bundle, paths + {p}))
    ensures Dirs(base + Moved(v, bundle, paths + {p})) <= Dirs(base) + MovedPaths(v, all)
    ensures |p| == 1 ==> [v] + p == [v, p[0]]
  {
    assert ([v] + p)[1..] == p;
    assert MovedPaths(v, paths + {p}) == MovedPaths(v, paths) + {[v] + p};
    assert MovedPaths(v, paths + {p}) <= MovedPaths(v, all);
  }

  lemma RemoveOneMore(base: Tree, v: string, gone: set<Path>, p: Path)
    requires gone <= Under(base, v) && p in Under(base, v)
    ensures base - gone - {p} == base - (gone + {p})
    ensures SameOutside(v, base, base - (gone + {p}))
  {
  }

  lemma RemoveKeepsRooted(base: Tree, v: string, gone: set<Path>, p: Path)
    requires gone <= Under(base, v) && Rooted(base - gone) && p in Under(base, v) - gone && NoneBelow(Under(base, v) - gone, p)
    ensures Trimmed(base, base - (gone + {p}))
  {
    var b, b' := base - gone, base - (gone + {p});
    forall q | q in b' ensures ParentIsDir(b', q) {
      assert ParentIsDir(b, q);
      if |q| > 1 {
        var parent := q[..|q| - 1];
        assert parent < q && parent[0] == q[0] && q in base;
        assert q in Under(base, v) - gone ==> !(p < q);
      }
    }
  }

  lemma NothingUnder(base: Tree, v: string)
    requires Rooted(base) && [v] !in base
    ensures Under(base, v) == {}
  {
    forall p | p in Under(base, v) ensures false {
      FirstComponentExists(base, p);
    }
  }

  lemma NamedMore(base: Tree, v: string, bundle: Tree, i: nat)
    requires i < |COPIED|
    ensures base + Moved(v, bundle, Named(bundle, i)) + Moved(v, bundle, Under(bundle, COPIED[i]))
         == base + Moved(v, bundle, Named(bundle, i + 1))
    ensures SameOutside(v, base, base + Moved(v, bundle, Named(bundle, i)))
    ensures Dirs(base + Moved(v, bundle, Named(bundle, i))) <= Dirs(base) + MovedPaths(v, Named(bundle, i))
    ensures MovedPaths(v, Named(bundle, i + 1)) == MovedPaths(v, Named(bundle, i)) + MovedPaths(v, Under(bundle, COPIED[i]))
  {
    NamedNext(bundle, i);
    MovedUnion(v, bundle, Named(bundle, i), Under(bundle, COPIED[i]));
  }

  lemma NamedNone(base: Tree, v: string, bundle: Tree)
    ensures base + Moved(v, bundle, Named(bundle, 0)) == base
  {
    assert Named(bundle, 0) == {};
    assert MovedPaths(v, {}) == {};
  }

  lemma NamedNext(bundle: Tree, i: nat)
    requires i < |COPIED|
    ensures Named(bundle, i + 1) == Named(bundle, i) + Under(bundle, COPIED[i])
  {
    assert COPIED[..i + 1] == COPIED[..i] + [COPIED[i]];
  }

  lemma MovedUnion(v: string, bundle: Tree, a: set<Path>, b: set<Path>)
    requires a + b <= bundle.Keys
    ensures Moved(v, bundle, a + b) == Moved(v, bundle, a) + Moved(v, bundle, b)
    ensures MovedPaths(v, a + b) == MovedPaths(v, a) + MovedPaths(v, b)
  {
    assert MovedPaths(v, a + b) == MovedPaths(v, a) + MovedPaths(v, b);
  }

  // ---- Repeating an installation after a crash ---------------------------------------------------

  /** `b` is `a` without some entries below directories other than `keep`. */
  ghost predicate Lopped(a: Tree, b: Tree, keep: string) {
    Trimmed(a, b) && forall p :: p in a && p !in b ==> p != [] && p[0] != keep && p[0] != "ACTIVE" && IsDir(a, [p[0]])
  }

  ghost predicate LoppedSteps(trace: seq<Disk>, n: nat, base: Tree, keep: string) {
    forall k :: n <= k < |trace| ==> Lopped(base, trace[k].base, keep)
  }

  lemma LoppedChain(before: seq<Disk>, trace: seq<Disk>, n: nat, a: Tree, b: Tree, keep: string, child: string)
    requires before <= trace && LoppedSteps(before, n, a, keep) && Lopped(a, b, keep)
    requires TrimmedSteps(trace, |before|, b) && Inside(trace, |before|, child, b, Dirs(b))
    requires [] !in a && child != keep && child != "ACTIVE" && IsDir(a, [child])
    ensures LoppedSteps(trace, n, a, keep)
  {
    forall k | n <= k < |trace| ensures Lopped(a, trace[k].base, keep) {
      if k < |before| {
        assert before[k] == trace[k];
      } else {
        LoppedStep(a, b, trace[k].base, keep, child);
      }
    }
  }

  lemma LoppedStep(a: Tree, b: Tree, c: Tree, keep: string, child: string)
    requires Lopped(a, b, keep) && Trimmed(b, c) && SameOutside(child, b, c)
    requires [] !in a && child != keep && child != "ACTIVE" && IsDir(a, [child])
    ensures Lopped(a, c, keep)
  {
  }

  lemma LoppedWithout(a: Tree, versions: set<string>, keep: string)
    requires Rooted(a) && [] !in a && keep !in versions && "ACTIVE" !in versions && forall v :: v in versions ==> IsDir(a, [v])
    ensures Lopped(a, Without(a, versions), keep)
  {
    var b := Without(a, versions);
    forall p | p in b ensures ParentIsDir(b, p) {
      assert ParentIsDir(a, p);
      assert |p| > 1 ==> p[..|p| - 1][0] == p[0];
    }
  }

  lemma KeepsView(trace: seq<Disk>, m: nat, base: Tree, done: set<string>, keep: string, child: string)
    requires keep !in done && "ACTIVE" !in done && child != keep && child != "ACTIVE"
    requires Inside(trace, m, child, Without(base, done), Dirs(Without(base, done)))
    ensures ActiveVersion(base) == Some(keep) ==> forall k :: m <= k < |trace| ==> Loaded(trace[k].base) == Loaded(base)
  {
    if ActiveVersion(base) == Some(keep) {
      WithoutKeepsActive(base, done, keep);
      forall k | m <= k < |trace| ensures Loaded(trace[k].base) == Loaded(base) {
        LoadedIgnoresOthers(child, Without(base, done), trace[k].base);
      }
    }
  }

  /** Pruning around another version takes the loaded one away. */
  lemma PrunedLoads(base: Tree, keep: string)
    requires Rooted(base) && [] !in base && !IsDir(base, ACTIVE)
    ensures Loaded(Pruned(base, keep)) == if ActiveVersion(base) == Some(keep) then Loaded(base) else None
  {
    var b := Pruned(base, keep);
    assert ACTIVE[0] == "ACTIVE";
    PruningKeeps(base, keep);
    if ActiveVersion(base).Some? {
      var a := ActiveVersion(base).value;
      assert [a, MODULES][0] == a && [a, MODULES][..1] == [a];
      if a == keep {
        assert Below(b, a) == Below(base, a) by {
          forall q ensures q in Below(b, a) <==> q in Below(base, a) { assert ([a] + q)[0] == a; }
        }
        assert Sub(b, a) == Sub(base, a);
      } else if [a, MODULES] in base {
        assert ParentIsDir(base, [a, MODULES]);
      }
    }
  }

  /**
   Outside the version, `b` is `a`; if previous versions are to go, entries below their directories may be
   missing already.
   */
  ghost predicate Residue(a: Tree, b: Tree, v: string, replace: bool) {
    forall p :: p != [] && p[0] != v && p[0] != "ACTIVE" ==>
      && (p in b ==> p in a && b[p] == a[p])
      && (p in a && p !in b ==> replace && IsDir(a, [p[0]]))
  }

  /** What a crash of the installation may leave. */
  ghost predicate Resumable(a: Tree, b: Tree, v: string, replace: bool) {
    Sane(b) && Tidy(b, v) && Residue(a, b, v, replace)
  }

  ghost predicate ResumableSteps(trace: seq<Disk>, n: nat, base: Tree, v: string, replace: bool) {
    forall k :: n <= k < |trace| ==> Resumable(base, trace[k].base, v, replace)
  }

  lemma ActivatingResumable(b: Tree, v: string, replace: bool)
    requires Tidy(b, v) && IsVersion(v) && Installed(b, v) && !IsDir(b, ACTIVE)
    ensures Resumable(b, b[ACTIVE := File(v + "\n")], v, replace)
  {
    ActivatingLoads(b, v);
    ActivatingKeepsRooted(b, v + "\n");
    assert ACTIVE[0] == "ACTIVE" && [v][0] == v;
  }

  lemma LoppedResumable(trace: seq<Disk>, n: nat, b: Tree, v: string)
    requires Tidy(b, v) && IsVersion(v) && Installed(b, v) && !IsDir(b, ACTIVE)
    requires LoppedSteps(trace, n, b[ACTIVE := File(v + "\n")], v)
    ensures ResumableSteps(trace, n, b, v, true)
  {
    ActivatingLoads(b, v);
    forall k | n <= k < |trace| ensures Resumable(b, trace[k].base, v, true) {
      LoppedIsResumable(b, trace[k].base, v);
    }
  }

  lemma LoppedIsResumable(b: Tree, c: Tree, v: string)
    requires Tidy(b, v) && IsVersion(v) && !IsDir(b, ACTIVE) && ActiveVersion(b[ACTIVE := File(v + "\n")]) == Some(v)
    requires Lopped(b[ACTIVE := File(v + "\n")], c, v)
    ensures Resumable(b, c, v, true)
  {
    assert ACTIVE[0] == "ACTIVE";
    assert ACTIVE in c;
    forall p | p != [] && p[0] != v && p[0] != "ACTIVE" && p in b && p !in c ensures IsDir(b, [p[0]]) {
      assert [p[0]] != ACTIVE;
    }
  }

  lemma CopyStepResumable(a: Tree, b: Tree, v: string, replace: bool)
    requires Sane(a) && IsVersion(v) && Tidy(b, v) && SameOutside(v, a, b)
    ensures Resumable(a, b, v, replace)
  {
    ActiveSame(v, a, b);
  }

  lemma ResumableAfterCopy(a: Tree, b: Tree, c: Tree, v: string, replace: bool)
    requires v != "ACTIVE" && SameOutside(v, a, b) && Resumable(b, c, v, replace)
    ensures Resumable(a, c, v, replace)
  {
    assert forall p: Path :: p != [] ==> [p[0]][0] == p[0];
  }

  lemma ResumableThroughout(base: Tree, b1: Tree, v: string, replace: bool, t1: seq<Disk>, trace: seq<Disk>, n: nat)
    requires Sane(base) && IsVersion(v) && t1 <= trace && SameOutside(v, base, b1)
    requires forall k :: n <= k < |t1| ==> Tidy(t1[k].base, v) && SameOutside(v, base, t1[k].base)
    requires forall k :: |t1| <= k < |trace| ==> Resumable(b1, trace[k].base, v, replace)
    ensures ResumableSteps(trace, n, base, v, replace)
  {
    forall k | n <= k < |trace| ensures Resumable(base, trace[k].base, v, replace) {
      if k < |t1| {
        assert trace[k] == t1[k];
        CopyStepResumable(base, t1[k].base, v, replace);
      } else {
        ResumableAfterCopy(base, b1, trace[k].base, v, replace);
      }
    }
  }

  /**
   Whatever step a crash came after, the same request is admitted again, and repeating it leaves exactly the
   disk that the uninterrupted installation would have left.
   */
  lemma RecoveryCompletes(w: World, d: Disk, crashed: Disk, r: Request)
    requires Sane(d.base) && Admitted(w, d.base, r)
    requires var v := VersionOf(w, r.bundle.value).value;
      IsVersion(v) && Resumable(d.base, crashed.base, v, r.replacePrevious)
    ensures Admitted(w, crashed.base, r)
    ensures var v := VersionOf(w, r.bundle.value).value;
      AfterInstall(crashed, v, r.bundle.value, r.replacePrevious) == AfterInstall(d, v, r.bundle.value, r.replacePrevious)
  {
    var v := VersionOf(w, r.bundle.value).value;
    if r.replacePrevious {
      SamePruned(d.base, crashed.base, v, r.bundle.value);
    } else {
      SameCopied(d.base, crashed.base, v, r.bundle.value);
    }
  }

  /** The tree that `Activate` leaves after the copy. */
  function Replaced(base: Tree, v: string, bundle: Tree): Tree {
    Copied(base, v, bundle, 4)[ACTIVE := File(v + "\n")]
  }

  /** An entry outside the version and ACTIVE is there afterwards as it was before. */
  lemma ReplacedOutside(base: Tree, v: string, bundle: Tree, p: Path)
    requires p != [] && p[0] != v && p[0] != "ACTIVE"
    ensures p in Replaced(base, v, bundle) <==> p in base
    ensures p in base ==> Replaced(base, v, bundle)[p] == base[p]
  {
    assert p != ACTIVE && p != [v];
  }

  /** What is there inside does not depend on what was there. */
  lemma ReplacedInside(a: Tree, b: Tree, v: string, bundle: Tree, p: Path)
    requires v != "ACTIVE" && p != [] && (p[0] == v || p == ACTIVE)
    ensures p in Replaced(a, v, bundle) <==> p in Replaced(b, v, bundle)
    ensures p in Replaced(a, v, bundle) ==> Replaced(a, v, bundle)[p] == Replaced(b, v, bundle)[p]
  {
    assert ACTIVE[0] == "ACTIVE";
  }

  lemma OnlyActive(base: Tree, p: Path)
    requires Rooted(base) && !IsDir(base, ACTIVE) && p in base && p != [] && p[0] == "ACTIVE"
    ensures p == ACTIVE
  {
    if |p| > 1 {
      FirstIsDir(base, p);
    }
  }

  lemma SameCopied(a: Tree, b: Tree, v: string, bundle: Tree)
    requires Sane(a) && IsVersion(v) && Resumable(a, b, v, false)
    ensures Replaced(a, v, bundle) == Replaced(b, v, bundle)
  {
    forall p ensures p in Replaced(a, v, bundle) <==> p in Replaced(b, v, bundle)
             ensures p in Replaced(a, v, bundle) ==> Replaced(a, v, bundle)[p] == Replaced(b, v, bundle)[p]
    {
      SameEntry(a, b, v, bundle, p);
    }
  }

  lemma SameEntry(a: Tree, b: Tree, v: string, bundle: Tree, p: Path)
    requires Sane(a) && IsVersion(v) && Resumable(a, b, v, false)
    ensures p in Replaced(a, v, bundle) <==> p in Replaced(b, v, bundle)
    ensures p in Replaced(a, v, bundle) ==> Replaced(a, v, bundle)[p] == Replaced(b, v, bundle)[p]
  {
    if p == [] {
    } else if p[0] == v || p == ACTIVE {
      ReplacedInside(a, b, v, bundle, p);
    } else if p[0] != "ACTIVE" {
      ReplacedOutside(a, v, bundle, p);
      ReplacedOutside(b, v, bundle, p);
    } else {
      NothingBesideActive(a, v, bundle, p);
      NothingBesideActive(b, v, bundle, p);
    }
  }

  lemma NothingBesideActive(base: Tree, v: string, bundle: Tree, p: Path)
    requires Rooted(base) && !IsDir(base, ACTIVE) && v != "ACTIVE" && p != [] && p[0] == "ACTIVE" && p != ACTIVE
    ensures p !in Replaced(base, v, bundle)
  {
    if p in base {
      OnlyActive(base, p);
    }
  }

  lemma SamePruned(a: Tree, b: Tree, v: string, bundle: Tree)
    requires Sane(a) && IsVersion(v) && Resumable(a, b, v, true)
    ensures Pruned(Replaced(a, v, bundle), v) == Pruned(Replaced(b, v, bundle), v)
  {
    var x, y := Replaced(a, v, bundle), Replaced(b, v, bundle);
    forall p ensures p in Pruned(x, v) <==> p in Pruned(y, v)
             ensures p in Pruned(x, v) ==> Pruned(x, v)[p] == Pruned(y, v)[p]
    {
      SameKept(a, b, v, bundle, p);
    }
    SameTrees(Pruned(x, v), Pruned(y, v));
  }

  lemma SameTrees(x: Tree, y: Tree)
    requires forall p :: (p in x <==> p in y) && (p in x ==> x[p] == y[p])
    ensures x == y
  {
  }

  lemma SameKept(a: Tree, b: Tree, v: string, bundle: Tree, p: Path)
    requires Sane(a) && IsVersion(v) && Resumable(a, b, v, true)
    ensures var x, y := Pruned(Replaced(a, v, bundle), v), Pruned(Replaced(b, v, bundle), v);
      (p in x <==> p in y) && (p in x ==> x[p] == y[p])
  {
    if p == [] {
    } else if p[0] == v || p == ACTIVE {
      ReplacedInside(a, b, v, bundle, p);
    } else if p[0] != "ACTIVE" {
      ReplacedOutside(a, v, bundle, p);
      ReplacedOutside(b, v, bundle, p);
      assert [p[0]][0] == p[0];
      ReplacedOutside(a, v, bundle, [p[0]]);
      ReplacedOutside(b, v, bundle, [p[0]]);
      if |p| == 1 {
        assert p == [p[0]];
      } else if p in b {
        FirstIsDir(b, p);
      }
    } else {
      NothingBesideActive(a, v, bundle, p);
      NothingBesideActive(b, v, bundle, p);
    }
  }

  // ---- Any sequence of calls -----------------------------------------------------------------

  /** What one call of `Install` or `SetActive`, successful or refused, does to the disk. */
  ghost predicate Effect(d: Disk, d': Disk) {
    || d' == d
    || (exists v :: IsVersion(v) && Installed(d.base, v) && d' == Activate(d, v))
    || (exists v, bundle, replace :: Installs(d, d', v, bundle, replace))
  }

  ghost predicate Installs(d: Disk, d': Disk, v: string, bundle: Tree, replace: bool) {
    IsVersion(v) && Rooted(bundle) && IsDir(bundle, [MODULES]) && d' == AfterInstall(d, v, bundle, replace)
  }

  /** ACTIVE is unset, or it names an installed version and the diagnostic marker repeats it. */
  ghost predicate Coherent(d: Disk) {
    && Sane(d.base)
    && match ActiveVersion(d.base) {
         case None => d.marker.None?
         case Some(v) => Installed(d.base, v) && d.marker == Some(v + "\n")
       }
  }

  lemma ParentsInVersion(base: Tree, v: string, bundle: Tree, q: Path)
    requires Rooted(bundle) && q != [] && [v] + q in Copied(base, v, bundle, 4)
    ensures ParentIsDir(Copied(base, v, bundle, 4), [v] + q)
  {
    var parent := q[..|q| - 1];
    CopiedHolds(base, v, bundle, 4);
    NamedIsImage(bundle);
    assert ([v] + q)[..|q|] == [v] + parent;
    assert ParentIsDir(bundle, q);
    if parent == [] {
      assert [v] + parent == [v];
    }
  }

  lemma CopyKeepsParents(base: Tree, v: string, bundle: Tree, p: Path)
    requires Rooted(base) && [] !in base && Rooted(bundle) && p in Copied(base, v, bundle, 4)
    ensures ParentIsDir(Copied(base, v, bundle, 4), p)
  {
    if |p| > 1 {
      if p[0] == v {
        assert p == [v] + p[1..];
        ParentsInVersion(base, v, bundle, p[1..]);
      } else {
        assert ParentIsDir(base, p);
      }
    }
  }

  lemma CopyKeepsRooted(base: Tree, v: string, bundle: Tree)
    requires Rooted(base) && [] !in base && Rooted(bundle)
    ensures Rooted(Copied(base, v, bundle, 4)) && [] !in Copied(base, v, bundle, 4)
  {
    CopiedHolds(base, v, bundle, 4);
    forall p | p in Copied(base, v, bundle, 4) ensures ParentIsDir(Copied(base, v, bundle, 4), p) {
      CopyKeepsParents(base, v, bundle, p);
    }
  }

  lemma ActivatingKeepsRooted(b: Tree, text: string)
    requires Rooted(b) && !IsDir(b, ACTIVE)
    ensures Rooted(b[ACTIVE := File(text)])
  {
    var b' := b[ACTIVE := File(text)];
    forall p | p in b' ensures ParentIsDir(b', p) {
      assert p in b ==> ParentIsDir(b, p);
      assert |ACTIVE| == 1;
    }
  }

  lemma PruningKeeps(b: Tree, keep: string)
    requires Rooted(b) && [] !in b && !IsDir(b, ACTIVE)
    ensures Rooted(Pruned(b, keep)) && [] !in Pruned(b, keep)
    ensures ActiveVersion(Pruned(b, keep)) == ActiveVersion(b) && !IsDir(Pruned(b, keep), ACTIVE)
    ensures Installed(b, keep) ==> Installed(Pruned(b, keep), keep) && Versions(Pruned(b, keep)) == {keep}
  {
    var r := Pruned(b, keep);
    assert ACTIVE[0] == "ACTIVE";
    forall p | p in r ensures ParentIsDir(r, p) {
      assert ParentIsDir(b, p);
      if |p| > 1 {
        FirstIsDir(b, p);
        assert p[..|p| - 1][0] == p[0];
      }
    }
    assert [keep][0] == keep && [keep, MODULES][0] == keep;
    forall v ensures v in Versions(r) ==> v == keep {
      VersionIsDir(r, v);
      assert [v][0] == v && (v == "ACTIVE" ==> [v] == ACTIVE);
    }
    VersionIsDir(r, keep);
  }

  lemma {:induction false} FirstIsDir(tree: Tree, p: Path)
    requires Rooted(tree) && p in tree && |p| > 1
    ensures IsDir(tree, [p[0]])
    decreases |p|
  {
    assert ParentIsDir(tree, p);
    if |p| > 2 {
      FirstIsDir(tree, p[..|p| - 1]);
    } else {
      assert p[..1] == [p[0]];
    }
  }

  lemma ActivationCoherent(d: Disk, v: string)
    requires Rooted(d.base) && [] !in d.base && !IsDir(d.base, ACTIVE) && IsVersion(v) && Installed(d.base, v)
    ensures Coherent(Activate(d, v)) && ActiveVersion(Activate(d, v).base) == Some(v)
    ensures Installed(Activate(d, v).base, v)
  {
    ActivatingLoads(d.base, v);
    ActivatingKeepsRooted(d.base, v + "\n");
    ActivatingKeepsTrees(d.base, v, File(v + "\n"));
    assert [v] != ACTIVE by { assert [v][0] == v; }
  }

  lemma InstallCoherent(d: Disk, d': Disk, v: string, bundle: Tree, replace: bool)
    requires Coherent(d) && Installs(d, d', v, bundle, replace)
    ensures Coherent(d') && ActiveVersion(d'.base) == Some(v) && Installed(d'.base, v)
    ensures replace ==> Versions(d'.base) == {v}
  {
    var placed := d.(base := Copied(d.base, v, bundle, 4));
    CopyIsImage(d.base, v, bundle);
    CopyKeepsRooted(d.base, v, bundle);
    ActiveSame(v, d.base, placed.base);
    ActivationCoherent(placed, v);
    PruningKeeps(Activate(placed, v).base, v);
  }

  lemma CallsKeepCoherent(d: Disk, d': Disk)
    requires Coherent(d) && Effect(d, d')
    ensures Coherent(d')
  {
    if v :| IsVersion(v) && Installed(d.base, v) && d' == Activate(d, v) {
      ActivationCoherent(d, v);
    } else if v, bundle, replace :| Installs(d, d', v, bundle, replace) {
      InstallCoherent(d, d', v, bundle, replace);
    }
  }

  ghost predicate CallByCall(history: seq<Disk>) {
    forall i :: 0 < i < |history| ==> Effect(history[i - 1], history[i])
  }

  /** Over any sequence of calls from a coherent disk, ACTIVE and the marker stay right. */
  lemma {:induction false} HistoryCoherent(history: seq<Disk>, i: nat)
    requires i < |history| && Coherent(history[0]) && CallByCall(history)
    ensures Coherent(history[i])
  {
    if i > 0 {
      HistoryCoherent(history, i - 1);
      CallsKeepCoherent(history[i - 1], history[i]);
    }
  }
}
