/**
 Model of _safe_members and _extract_tar in backend/app/platform/bundle_install.py, without symbolic
 links: member names resolve lexically against the destination.
 */
module ArchiveExtraction {
  import opened Text
  import opened BundleChecksums

  function Components(name: string): seq<string>
    decreases |name|
  {
    var n := SlashAt(name);
    if n == |name| then [name] else [name[..n]] + Components(name[n + 1..])
  }

  function SlashAt(s: string): (n: nat)
    ensures n <= |s|
  {
    if s == [] || s[0] == '/' then 0 else 1 + SlashAt(s[1..])
  }

  predicate IsAbsolute(name: string) {
    name != [] && name[0] == '/'
  }

  /** One component of `Path.resolve`. Above the root is the root. */
  function Enter(at: Path, c: string): Path {
    if c == "" || c == "." then at
    else if c == ".." then (if at == [] then [] else at[..|at| - 1])
    else at + [c]
  }

  function Walk(at: Path, cs: seq<string>): Path {
    if cs == [] then at else Enter(Walk(at, cs[..|cs| - 1]), cs[|cs| - 1])
  }

  /** `(dest / name).resolve()` */
  function Target(dest: Path, name: string): Path {
    Walk(if IsAbsolute(name) then [] else dest, Components(name))
  }

  /** `target.relative_to(dest)` does not raise. */
  predicate Stays(dest: Path, name: string) {
    dest <= Target(dest, name)
  }

  // ---- What is accepted ----------------------------------------------------------------------

  /** A name without its detours: so many steps up, then a path down. */
  datatype Route = Route(up: nat, down: Path)

  function Straight(cs: seq<string>): Route {
    if cs == [] then Route(0, [])
    else
      var r, c := Straight(cs[..|cs| - 1]), cs[|cs| - 1];
      if c == "" || c == "." then r
      else if c != ".." then Route(r.up, r.down + [c])
      else if r.down == [] then Route(r.up + 1, [])
      else Route(r.up, r.down[..|r.down| - 1])
  }

  function Min(a: nat, b: nat): nat {
    if a < b then a else b
  }

  /** Steps up that pass the root are lost; everything else is exact. */
  lemma {:induction false} WalkIsStraight(at: Path, cs: seq<string>)
    ensures var r := Straight(cs); Walk(at, cs) == at[..|at| - Min(r.up, |at|)] + r.down
  {
    if cs != [] {
      WalkIsStraight(at, cs[..|cs| - 1]);
    }
  }

  /**
   The names the guard accepts: a relative name that climbs `k` levels must come back down through the
   last `k` components of the destination, and an absolute name must lead into the destination.
   */
  lemma AcceptedExactly(dest: Path, name: string)
    ensures var r := Straight(Components(name));
      Stays(dest, name) <==> (if IsAbsolute(name) then dest else dest[|dest| - Min(r.up, |dest|)..]) <= r.down
  {
    var r := Straight(Components(name));
    WalkIsStraight(if IsAbsolute(name) then [] else dest, Components(name));
    if !IsAbsolute(name) {
      CutBelow(dest, |dest| - Min(r.up, |dest|), r.down);
    }
  }

  lemma CutBelow(dest: Path, cut: nat, down: Path)
    requires cut <= |dest|
    ensures dest <= dest[..cut] + down <==> dest[cut..] <= down
  {
    var target := dest[..cut] + down;
    assert dest == dest[..cut] + dest[cut..];
    if dest[cut..] <= down {
      assert target[..|dest|] == dest;
    }
    if dest <= target {
      assert down[..|dest| - cut] == target[cut..|dest|] == dest[cut..];
    }
  }

  // ---- Extraction ----------------------------------------------------------------------------

  /** A member is a directory or a plain file. */
  datatype Member = Member(name: string, node: Node)

  function StripSlashes(name: string): string {
    if IsAbsolute(name) then StripSlashes(name[1..]) else name
  }

  /**
   Where a member goes. The `data` filter of newer Python versions takes leading slashes off and raises
   (None) if the name then leaves the destination; older versions have no filter.
   */
  function PlaceOf(filtered: bool, dest: Path, name: string): Option<Path> {
    if !filtered then Some(Target(dest, name))
    else if Stays(dest, StripSlashes(name)) then Some(Target(dest, StripSlashes(name)))
    else None
  }

  function Prefixes(p: Path): set<Path> {
    set i | 0 <= i < |p| :: p[..i]
  }

  function WithParents(files: Tree, p: Path): Tree {
    map q | q in files.Keys + Prefixes(p) :: if q in files then files[q] else Dir
  }

  /** A file is in the way: above the path, or at a path where a directory goes, or the other way round. */
  predicate Blocked(files: Tree, p: Path, node: Node) {
    (exists q | q in Prefixes(p) :: q in files && files[q].File?) || (p in files && files[p].Dir? != node.Dir?)
  }

  /** One member written, with the directories above it; None: the operating system raises. */
  function Put(files: Tree, p: Path, node: Node): Option<Tree> {
    if Blocked(files, p, node) then None else Some(WithParents(files, p)[p := node])
  }

  function PutMember(filtered: bool, files: Tree, dest: Path, m: Member): Option<Tree> {
    match PlaceOf(filtered, dest, m.name)
    case None => None
    case Some(p) => Put(files, p, m.node)
  }

  /** What is there after the members, and whether extraction got to the end. */
  datatype Extracted = Extracted(files: Tree, ok: bool)

  function Written(filtered: bool, files: Tree, dest: Path, members: seq<Member>): Extracted {
    if members == [] then Extracted(files, true)
    else
      var before := Written(filtered, files, dest, members[..|members| - 1]);
      if !before.ok then before
      else
        match PutMember(filtered, before.files, dest, members[|members| - 1])
        case None => Extracted(before.files, false)
        case Some(t) => Extracted(t, true)
  }

  ghost predicate SameOutside(dest: Path, a: Tree, b: Tree) {
    forall p :: !(dest <= p) ==> (p in a <==> p in b) && (p in a ==> a[p] == b[p])
  }

  /** The destination and everything above it are directories. */
  ghost predicate IsPlace(files: Tree, dest: Path) {
    forall i :: 0 <= i <= |dest| ==> IsDir(files, dest[..i])
  }

  ghost predicate Accepted(dest: Path, members: seq<Member>) {
    forall m :: m in members ==> Stays(dest, m.name)
  }

  /** Nothing lies below the destination yet. */
  ghost predicate Fresh(files: Tree, dest: Path) {
    IsPlace(files, dest) && forall p :: p in files && dest <= p ==> p == dest
  }

  /** A plain file strictly above the place `q` of another member, or two of different kind at one place. */
  predicate Clash(p: Path, node: Node, q: Path, other: Node) {
    (p < q && node.File?) || (p == q && node.Dir? != other.Dir?)
  }

  /** Every name passes the filter, no plain file takes the place of the destination, and no two members clash. */
  ghost predicate Compatible(filtered: bool, dest: Path, members: seq<Member>) {
    && (forall m :: m in members ==> PlaceOf(filtered, dest, m.name).Some?)
    && (forall m :: m in members ==> !Clash(PlaceOf(filtered, dest, m.name).value, m.node, dest, Dir))
    && (forall a, b :: a in members && b in members ==>
          !Clash(PlaceOf(filtered, dest, a.name).value, a.node, PlaceOf(filtered, dest, b.name).value, b.node))
  }

  /** Refused: a name is unsafe. Stopped: the filter or the operating system raises half-way. */
  datatype Outcome = Refused | Stopped | Done

  class Disk {
    var files: Tree

    constructor (files: Tree)
      ensures this.files == files
    {
      this.files := files;
    }

    /** The whole member list is checked before the first write. */
    method SafeMembers(dest: Path, members: seq<Member>) returns (ok: bool)
      ensures ok <==> Accepted(dest, members)
    {
      for i := 0 to |members|
        invariant Accepted(dest, members[..i])
      {
        if !Stays(dest, members[i].name) {
          return false;
        }
        assert members[..i + 1] == members[..i] + [members[i]];
      }
      assert members[..|members|] == members;
      return true;
    }

    /** One unsafe name and nothing is written. In no case is anything outside the destination touched. */
    method Extract(filtered: bool, dest: Path, members: seq<Member>) returns (r: Outcome)
      requires IsPlace(files, dest)
      modifies this
      ensures r == Refused <==> !Accepted(dest, members)
      ensures r == Refused ==> files == old(files)
      ensures r != Refused ==> Extracted(files, r == Done) == Written(filtered, old(files), dest, members)
      ensures SameOutside(dest, old(files), files)
      ensures Fresh(old(files), dest) ==> (r == Done <==> Accepted(dest, members) && Compatible(filtered, dest, members))
    {
      if Accepted(dest, members) && Fresh(files, dest) {
        EndsExactly(filtered, files, dest, members);
      }
      var safe := SafeMembers(dest, members);
      if !safe { return Refused; }
      var done := ExtractAll(filtered, dest, members);
      r := if done then Done else Stopped;
    }

    /** Writes the members in order, up to the end or to the first that raises. */
    method ExtractAll(filtered: bool, dest: Path, members: seq<Member>) returns (done: bool)
      requires IsPlace(files, dest) && Accepted(dest, members)
      modifies this
      ensures Extracted(files, done) == Written(filtered, old(files), dest, members)
      ensures SameOutside(dest, old(files), files)
    {
      for i := 0 to |members|
        invariant WrittenUpTo(filtered, old(files), dest, members, i, files)
      {
        ExtractStep(filtered, old(files), dest, members, i, files);
        var next := PutMember(filtered, files, dest, members[i]);
        if next.None? {
          return false;
        }
        files := next.value;
      }
      assert members[..|members|] == members;
      done := true;
    }
  }

  ghost predicate WrittenUpTo(filtered: bool, start: Tree, dest: Path, members: seq<Member>, n: nat, files: Tree) {
    match Extracted(files, true)
    case Extracted(t, ok) =>
      n <= |members| && Written(filtered, start, dest, members[..n]) == Extracted(t, ok) && SameOutside(dest, start, t) && IsPlace(t, dest)
  }

  lemma ExtractStep(filtered: bool, start: Tree, dest: Path, members: seq<Member>, i: nat, files: Tree)
    requires i < |members| && Accepted(dest, members) && WrittenUpTo(filtered, start, dest, members, i, files)
    ensures match PutMember(filtered, files, dest, members[i])
      case None => Written(filtered, start, dest, members) == Extracted(files, false)
      case Some(t) => WrittenUpTo(filtered, start, dest, members, i + 1, t)
  {
    assert members[..i + 1][..i] == members[..i];
    assert members[i] in members;
    if PutMember(filtered, files, dest, members[i]).None? {
      StopsForGood(filtered, start, dest, members, i + 1);
    } else {
      PutStaysInside(files, dest, PlaceOf(filtered, dest, members[i].name).value, members[i].node);
    }
  }

  lemma PutStaysInside(files: Tree, dest: Path, p: Path, node: Node)
    requires IsPlace(files, dest) && dest <= p && Put(files, p, node).Some?
    ensures SameOutside(dest, files, Put(files, p, node).value) && IsPlace(Put(files, p, node).value, dest)
  {
    var after := Put(files, p, node).value;
    forall q | !(dest <= q) && q in Prefixes(p) ensures q in files {
      assert q == dest[..|q|];
    }
    forall i | 0 <= i <= |dest| ensures IsDir(after, dest[..i]) {
      assert IsDir(files, dest[..i]);
    }
  }

  lemma {:induction false} StopsForGood(filtered: bool, files: Tree, dest: Path, members: seq<Member>, n: nat)
    requires n <= |members| && !Written(filtered, files, dest, members[..n]).ok
    ensures Written(filtered, files, dest, members) == Written(filtered, files, dest, members[..n])
    decreases |members|
  {
    if n < |members| {
      assert members[..|members| - 1][..n] == members[..n];
      StopsForGood(filtered, files, dest, members[..|members| - 1], n);
    } else {
      assert members[..n] == members;
    }
  }

  // ---- When the filter raises ---------------------------------------------------------------------

  lemma {:induction false} ComponentsOf(c: string, rest: string)
    requires '/' !in c
    ensures Components(c + "/" + rest) == [c] + Components(rest)
  {
    FirstSlash(c, rest);
    var name := c + "/" + rest;
    assert name[..|c|] == c && name[|c| + 1..] == rest;
  }

  lemma {:induction false} FirstSlash(c: string, rest: string)
    requires '/' !in c
    ensures SlashAt(c + "/" + rest) == |c|
  {
    if c != "" {
      assert c[0] in c;
      assert (c + "/" + rest)[1..] == c[1..] + "/" + rest;
      FirstSlash(c[1..], rest);
    }
  }

  lemma {:induction false} StraightSkipsEmpty(cs: seq<string>)
    ensures Straight([""] + cs) == Straight(cs)
  {
    if cs == [] {
      assert ([""] + cs)[..0] == [];
    } else {
      StraightSkipsEmpty(cs[..|cs| - 1]);
      assert ([""] + cs)[..|cs|] == [""] + cs[..|cs| - 1];
    }
  }

  lemma {:induction false} SlashesDoNotMove(name: string)
    ensures Straight(Components(StripSlashes(name))) == Straight(Components(name))
  {
    if IsAbsolute(name) {
      SlashesDoNotMove(name[1..]);
      assert name == "" + "/" + name[1..];
      ComponentsOf("", name[1..]);
      StraightSkipsEmpty(Components(name[1..]));
    }
  }

  lemma {:induction false} StrippedIsRelative(name: string)
    ensures !IsAbsolute(StripSlashes(name))
  {
    if IsAbsolute(name) {
      StrippedIsRelative(name[1..]);
    }
  }

  /**
   The filter raises on an accepted name exactly when it is absolute and climbs above levels of the destination
   that it does not come back through; such a name stops the extraction half-way.
   */
  lemma FilterRaisesOn(dest: Path, name: string)
    requires Stays(dest, name)
    ensures var r := Straight(Components(name));
      PlaceOf(true, dest, name).None? <==> IsAbsolute(name) && !(dest[|dest| - Min(r.up, |dest|)..] <= r.down)
  {
    SlashesDoNotMove(name);
    StrippedIsRelative(name);
    AcceptedExactly(dest, name);
    AcceptedExactly(dest, StripSlashes(name));
  }

  predicate IsOrdinary(c: string) {
    c != "" && '/' !in c && c != "." && c != ".."
  }

  lemma DownOne(cs: seq<string>, c: string)
    requires IsOrdinary(c)
    ensures Straight(cs + [c]) == Route(Straight(cs).up, Straight(cs).down + [c])
  {
    assert (cs + [c])[..|cs|] == cs;
  }

  lemma UpOne()
    ensures Straight([".."]) == Route(1, [])
  {
    assert [".."][..0] == [];
  }

  /** There are such names: "/../a/b" leads to /a/b, but "../a/b" leads out of it. */
  lemma AcceptedYetRaises(a: string, b: string)
    requires IsOrdinary(a) && IsOrdinary(b) && a != b
    ensures var name := "" + "/" + (".." + "/" + (a + "/" + b));
      Stays([a, b], name) && PlaceOf(true, [a, b], name).None?
  {
    var name := "" + "/" + (".." + "/" + (a + "/" + b));
    ComponentsOf("", ".." + "/" + (a + "/" + b));
    ComponentsOf("..", a + "/" + b);
    ComponentsOf(a, b);
    LastComponent(b);
    var cs := ([".."] + [a]) + [b];
    assert Components(name) == [""] + cs;
    StraightSkipsEmpty(cs);
    UpOne();
    DownOne([".."], a);
    DownOne([".."] + [a], b);
    assert Straight(cs).down == [a, b];
    RaisesWhen([a, b], name);
  }

  lemma LastComponent(b: string)
    requires '/' !in b
    ensures Components(b) == [b]
  {
    NoSlash(b);
  }

  lemma {:induction false} NoSlash(b: string)
    requires '/' !in b
    ensures SlashAt(b) == |b|
  {
    if b != "" {
      assert b[0] in b;
      NoSlash(b[1..]);
    }
  }

  lemma RaisesWhen(dest: Path, name: string)
    requires IsAbsolute(name) && |dest| == 2 && dest[0] != dest[1] && Straight(Components(name)) == Route(1, dest)
    ensures Stays(dest, name) && PlaceOf(true, dest, name).None?
  {
    AcceptedExactly(dest, name);
    FilterRaisesOn(dest, name);
    assert dest[1..][0] == dest[1];
  }

  // ---- What an extraction leaves -----------------------------------------------------------------

  /** Member `k` goes to `p`. */
  ghost predicate GoesTo(filtered: bool, dest: Path, members: seq<Member>, k: nat, p: Path) {
    k < |members| && PlaceOf(filtered, dest, members[k].name) == Some(p)
  }

  ghost predicate LastAt(filtered: bool, dest: Path, members: seq<Member>, p: Path, k: nat) {
    GoesTo(filtered, dest, members, k, p) && forall j :: k < j < |members| ==> !GoesTo(filtered, dest, members, j, p)
  }

  lemma WrittenBefore(filtered: bool, files: Tree, dest: Path, members: seq<Member>)
    requires members != [] && Written(filtered, files, dest, members).ok
    ensures var rest, last := members[..|members| - 1], members[|members| - 1];
      var before, place := Written(filtered, files, dest, rest), PlaceOf(filtered, dest, last.name);
      && before.ok && place.Some?
      && Put(before.files, place.value, last.node) == Some(Written(filtered, files, dest, members).files)
  {
  }

  /** Of members that go to the same path the last one is kept. */
  lemma {:induction false} LastMemberWins(filtered: bool, files: Tree, dest: Path, members: seq<Member>, p: Path, k: nat)
    requires Written(filtered, files, dest, members).ok && LastAt(filtered, dest, members, p, k)
    ensures var r := Written(filtered, files, dest, members).files; p in r && r[p] == members[k].node
    decreases |members|
  {
    WrittenBefore(filtered, files, dest, members);
    if k < |members| - 1 {
      var rest := members[..|members| - 1];
      assert !GoesTo(filtered, dest, members, |members| - 1, p);
      assert forall j :: 0 <= j < |rest| ==> (GoesTo(filtered, dest, rest, j, p) <==> GoesTo(filtered, dest, members, j, p));
      LastMemberWins(filtered, files, dest, rest, p, k);
    }
  }

  /** Anything else is as it was, or is a directory made above some member. */
  lemma {:induction false} OthersAsBefore(filtered: bool, files: Tree, dest: Path, members: seq<Member>, p: Path)
    requires Written(filtered, files, dest, members).ok
    requires forall k: nat :: !GoesTo(filtered, dest, members, k, p)
    ensures var r := Written(filtered, files, dest, members).files;
      if p in files then p in r && r[p] == files[p]
      else p in r ==> r[p] == Dir && exists k: nat, q :: GoesTo(filtered, dest, members, k, q) && p < q
    decreases |members|
  {
    if members != [] {
      WrittenBefore(filtered, files, dest, members);
      var rest, n := members[..|members| - 1], |members| - 1;
      assert forall j: nat, q :: j < n ==> (GoesTo(filtered, dest, rest, j, q) <==> GoesTo(filtered, dest, members, j, q));
      OthersAsBefore(filtered, files, dest, rest, p);
      var place := PlaceOf(filtered, dest, members[n].name).value;
      assert GoesTo(filtered, dest, members, n, place) && p != place;
      if p in Prefixes(place) {
        assert p < place;
      }
    }
  }

  // ---- When an extraction gets to its end ----------------------------------------------------------

  /** `b` holds what `a` holds, each of the same kind. */
  ghost predicate KeepsKinds(a: Tree, b: Tree) {
    forall p :: p in a ==> p in b && b[p].Dir? == a[p].Dir?
  }

  /** The member's node has its kind at its place, and directories above. */
  ghost predicate Placed(files: Tree, p: Path, node: Node) {
    p in files && files[p].Dir? == node.Dir? && forall q :: q < p ==> IsDir(files, q)
  }

  lemma PutPlaces(files: Tree, p: Path, node: Node)
    requires Put(files, p, node).Some?
    ensures KeepsKinds(files, Put(files, p, node).value) && Placed(Put(files, p, node).value, p, node)
  {
    forall q | q < p ensures q in Prefixes(p) {
      assert q == p[..|q|];
    }
  }

  lemma StaysPlaced(a: Tree, b: Tree, p: Path, node: Node)
    requires Placed(a, p, node) && KeepsKinds(a, b)
    ensures Placed(b, p, node)
  {
    forall q | q < p ensures IsDir(b, q) {
      assert IsDir(a, q);
    }
  }

  /** The member passes the filter, and its node is in place. */
  ghost predicate MemberPlaced(filtered: bool, dest: Path, files: Tree, m: Member) {
    match PlaceOf(filtered, dest, m.name)
    case None => false
    case Some(p) => Placed(files, p, m.node)
  }

  lemma KindsChain(a: Tree, b: Tree, c: Tree)
    requires KeepsKinds(a, b) && KeepsKinds(b, c)
    ensures KeepsKinds(a, c)
  {
  }

  /** Whatever was written keeps its kind. */
  lemma {:induction false} EndKeepsKinds(filtered: bool, files: Tree, dest: Path, members: seq<Member>)
    requires Written(filtered, files, dest, members).ok
    ensures KeepsKinds(files, Written(filtered, files, dest, members).files)
    ensures forall m :: m in members ==> MemberPlaced(filtered, dest, Written(filtered, files, dest, members).files, m)
    decreases |members|
  {
    if members != [] {
      WrittenBefore(filtered, files, dest, members);
      var rest, last := members[..|members| - 1], members[|members| - 1];
      var before, end := Written(filtered, files, dest, rest).files, Written(filtered, files, dest, members).files;
      EndKeepsKinds(filtered, files, dest, rest);
      PutPlaces(before, PlaceOf(filtered, dest, last.name).value, last.node);
      KindsChain(files, before, end);
      forall m | m in members ensures MemberPlaced(filtered, dest, end, m) {
        if m != last {
          assert m in rest;
          StaysPlaced(before, end, PlaceOf(filtered, dest, m.name).value, m.node);
        }
      }
    }
  }

  lemma PlacedDoNotClash(files: Tree, p: Path, node: Node, q: Path, other: Node)
    requires Placed(files, p, node) && Placed(files, q, other)
    ensures !Clash(p, node, q, other)
  {
    assert p < q ==> IsDir(files, p);
  }

  lemma DestIsPlaced(files: Tree, dest: Path)
    requires IsPlace(files, dest)
    ensures Placed(files, dest, Dir)
  {
    assert IsDir(files, dest[..|dest|]) && dest[..|dest|] == dest;
    forall q | q < dest ensures IsDir(files, q) {
      assert q == dest[..|q|] && IsDir(files, dest[..|q|]);
    }
  }

  lemma EndMeansCompatible(filtered: bool, files: Tree, dest: Path, members: seq<Member>)
    requires IsPlace(files, dest) && Written(filtered, files, dest, members).ok
    ensures Compatible(filtered, dest, members)
  {
    var end := Written(filtered, files, dest, members).files;
    EndKeepsKinds(filtered, files, dest, members);
    DestIsPlaced(files, dest);
    StaysPlaced(files, end, dest, Dir);
    PlacedAreCompatible(filtered, dest, members, end);
  }

  lemma PlacedAreCompatible(filtered: bool, dest: Path, members: seq<Member>, end: Tree)
    requires Placed(end, dest, Dir) && forall m :: m in members ==> MemberPlaced(filtered, dest, end, m)
    ensures Compatible(filtered, dest, members)
  {
    forall m | m in members
      ensures PlaceOf(filtered, dest, m.name).Some?
      ensures Placed(end, PlaceOf(filtered, dest, m.name).value, m.node)
    {
    }
    forall m | m in members ensures !Clash(PlaceOf(filtered, dest, m.name).value, m.node, dest, Dir) {
      PlacedDoNotClash(end, PlaceOf(filtered, dest, m.name).value, m.node, dest, Dir);
    }
    forall a, b | a in members && b in members
      ensures !Clash(PlaceOf(filtered, dest, a.name).value, a.node, PlaceOf(filtered, dest, b.name).value, b.node)
    {
      PlacedDoNotClash(end, PlaceOf(filtered, dest, a.name).value, a.node, PlaceOf(filtered, dest, b.name).value, b.node);
    }
  }

  /** A plain file on the way to `p`, or the kind of node at `p`, comes from a member or from before. */
  lemma KindComesFrom(filtered: bool, files: Tree, dest: Path, members: seq<Member>, q: Path)
    requires Fresh(files, dest) && Written(filtered, files, dest, members).ok && q in Written(filtered, files, dest, members).files
    requires dest <= q || q <= dest
    ensures var node := Written(filtered, files, dest, members).files[q];
      || (exists m :: m in members && PlaceOf(filtered, dest, m.name) == Some(q) && m.node.Dir? == node.Dir?)
      || (node.Dir? && (q <= dest || exists m :: m in members && PlaceOf(filtered, dest, m.name).Some? && q < PlaceOf(filtered, dest, m.name).value))
  {
    EndKeepsKinds(filtered, files, dest, members);
    if forall k: nat :: !GoesTo(filtered, dest, members, k, q) {
      OthersAsBefore(filtered, files, dest, members, q);
      if q in files {
        assert q == dest[..|q|] && IsDir(files, dest[..|q|]);
      } else {
        var k: nat, place :| GoesTo(filtered, dest, members, k, place) && q < place;
        assert members[k] in members;
      }
    } else {
      var k: nat :| GoesTo(filtered, dest, members, k, q);
      assert members[k] in members;
    }
  }

  lemma {:induction false} CompatibleEnds(filtered: bool, files: Tree, dest: Path, members: seq<Member>)
    requires Fresh(files, dest) && Compatible(filtered, dest, members)
    requires forall m :: m in members ==> dest <= PlaceOf(filtered, dest, m.name).value
    ensures Written(filtered, files, dest, members).ok
    decreases |members|
  {
    if members != [] {
      var rest, last := members[..|members| - 1], members[|members| - 1];
      assert members == rest + [last];
      CompatibleEnds(filtered, files, dest, rest);
      var before, p := Written(filtered, files, dest, rest).files, PlaceOf(filtered, dest, last.name).value;
      assert last in members;
      forall q | q in Prefixes(p) && q in before ensures before[q].Dir? {
        KindComesFrom(filtered, files, dest, rest, q);
      }
      if p in before {
        KindComesFrom(filtered, files, dest, rest, p);
      }
    }
  }

  lemma PlacesInside(filtered: bool, dest: Path, members: seq<Member>)
    requires Accepted(dest, members)
    ensures forall m :: m in members && PlaceOf(filtered, dest, m.name).Some? ==> dest <= PlaceOf(filtered, dest, m.name).value
  {
  }

  /**
   Into a fresh destination, an accepted list extracts to the end exactly when it is `Compatible`: whether it
   does is independent of the order of the members.
   */
  lemma EndsExactly(filtered: bool, files: Tree, dest: Path, members: seq<Member>)
    requires Fresh(files, dest) && Accepted(dest, members)
    ensures Written(filtered, files, dest, members).ok <==> Compatible(filtered, dest, members)
  {
    PlacesInside(filtered, dest, members);
    if Written(filtered, files, dest, members).ok {
      EndMeansCompatible(filtered, files, dest, members);
    }
    if Compatible(filtered, dest, members) {
      CompatibleEnds(filtered, files, dest, members);
    }
  }

  // ---- Packing and unpacking ------------------------------------------------------------------------

  ghost predicate IsPlain(p: Path) {
    p != [] && forall c :: c in p ==> IsOrdinary(c)
  }

  ghost predicate IsPacked(m: Member, tree: Tree, p: Path) {
    p in tree && m == Member(Posix(p), tree[p])
  }

  ghost predicate IsEntry(m: Member, tree: Tree) {
    exists p :: IsPacked(m, tree, p)
  }

  /** A member is the entry `p` or below it. */
  ghost predicate Covers(members: seq<Member>, tree: Tree, p: Path) {
    exists k: nat, q :: k < |members| && IsPacked(members[k], tree, q) && p <= q
  }

  /** Every member is an entry of the tree, and every entry is a member or stands above one. Order and repetition are free. */
  ghost predicate Packs(members: seq<Member>, tree: Tree) {
    && (forall m :: m in members ==> IsEntry(m, tree))
    && (forall p {:trigger Covers(members, tree, p)} :: p in tree ==> Covers(members, tree, p))
  }

  /** A directory tree of ordinary names. */
  ghost predicate IsPackable(tree: Tree) {
    Rooted(tree) && forall p :: p in tree ==> IsPlain(p)
  }

  lemma {:induction false} PosixComponents(p: Path)
    requires IsPlain(p)
    ensures Components(Posix(p)) == p && !IsAbsolute(Posix(p))
  {
    assert p[0] in p;
    if |p| == 1 {
      LastComponent(p[0]);
    } else {
      PosixComponents(p[1..]);
      ComponentsOf(p[0], Posix(p[1..]));
      assert p[0][0] in p[0];
    }
  }

  lemma {:induction false} StraightOn(p: Path)
    requires forall c :: c in p ==> IsOrdinary(c)
    ensures Straight(p) == Route(0, p)
  {
    if p != [] {
      var rest := p[..|p| - 1];
      assert p == rest + [p[|p| - 1]];
      StraightOn(rest);
      DownOne(rest, p[|p| - 1]);
    }
  }

  /** The posix name of an entry leads to the entry. */
  lemma PlainNameGoes(filtered: bool, dest: Path, p: Path)
    requires IsPlain(p)
    ensures Stays(dest, Posix(p)) && PlaceOf(filtered, dest, Posix(p)) == Some(dest + p)
  {
    PosixComponents(p);
    StraightOn(p);
    WalkIsStraight(dest, p);
    assert dest[..|dest| - Min(0, |dest|)] == dest;
  }

  lemma {:induction false} DirAbove(tree: Tree, p: Path, q: Path)
    requires Rooted(tree) && q in tree && p != [] && p < q
    ensures IsDir(tree, p)
    decreases |q|
  {
    var parent := q[..|q| - 1];
    assert ParentIsDir(tree, q);
    if p != parent {
      assert p < parent;
      DirAbove(tree, p, parent);
    }
  }

  lemma EntriesDoNotClash(tree: Tree, dest: Path, p: Path, q: Path)
    requires Rooted(tree) && p in tree && q in tree && p != []
    ensures !Clash(dest + p, tree[p], dest + q, tree[q])
  {
    if dest + p < dest + q {
      assert p == (dest + p)[|dest|..] && q == (dest + q)[|dest|..];
      assert p == (dest + q)[..|dest + p|][|dest|..];
      DirAbove(tree, p, q);
    } else if dest + p == dest + q {
      assert p == (dest + p)[|dest|..] && q == (dest + q)[|dest|..];
    }
  }

  lemma PackedGoes(filtered: bool, dest: Path, members: seq<Member>, tree: Tree, m: Member) returns (p: Path)
    requires IsPackable(tree) && Packs(members, tree) && m in members
    ensures IsPacked(m, tree, p) && IsPlain(p) && Stays(dest, m.name) && PlaceOf(filtered, dest, m.name) == Some(dest + p)
  {
    p :| IsPacked(m, tree, p);
    PlainNameGoes(filtered, dest, p);
  }

  lemma PackedIsCompatible(filtered: bool, dest: Path, members: seq<Member>, tree: Tree)
    requires IsPackable(tree) && Packs(members, tree)
    ensures Accepted(dest, members) && Compatible(filtered, dest, members)
  {
    forall m | m in members
      ensures Stays(dest, m.name) && PlaceOf(filtered, dest, m.name).Some?
      ensures !Clash(PlaceOf(filtered, dest, m.name).value, m.node, dest, Dir)
    {
      var p := PackedGoes(filtered, dest, members, tree, m);
      assert |dest + p| > |dest|;
    }
    forall a, b | a in members && b in members
      ensures !Clash(PlaceOf(filtered, dest, a.name).value, a.node, PlaceOf(filtered, dest, b.name).value, b.node)
    {
      var p := PackedGoes(filtered, dest, members, tree, a);
      var q := PackedGoes(filtered, dest, members, tree, b);
      EntriesDoNotClash(tree, dest, p, q);
    }
  }

  lemma {:induction false} FindLast(filtered: bool, dest: Path, members: seq<Member>, p: Path, k: nat) returns (last: nat)
    requires GoesTo(filtered, dest, members, k, p)
    ensures LastAt(filtered, dest, members, p, last)
    decreases |members| - k
  {
    if j: nat :| k < j && GoesTo(filtered, dest, members, j, p) {
      last := FindLast(filtered, dest, members, p, j);
    } else {
      last := k;
    }
  }

  /**
   Packed in any order, with or without entries for the directories above others, a tree comes out of a
   fresh destination as it went in.
   */
  lemma PackedComesOut(filtered: bool, files: Tree, dest: Path, members: seq<Member>, tree: Tree, q: Path)
    requires Fresh(files, dest) && IsPackable(tree) && Packs(members, tree) && q != []
    ensures Accepted(dest, members) && Written(filtered, files, dest, members).ok
    ensures var end := Written(filtered, files, dest, members).files;
      (dest + q in end <==> q in tree) && (q in tree ==> end[dest + q] == tree[q])
  {
    PackedIsCompatible(filtered, dest, members, tree);
    EndsExactly(filtered, files, dest, members);
    if k: nat :| GoesTo(filtered, dest, members, k, dest + q) {
      WrittenAtMember(filtered, files, dest, members, tree, q, k);
    } else {
      WrittenElsewhere(filtered, files, dest, members, tree, q);
    }
  }

  lemma WrittenAtMember(filtered: bool, files: Tree, dest: Path, members: seq<Member>, tree: Tree, q: Path, k: nat)
    requires IsPackable(tree) && Packs(members, tree) && Written(filtered, files, dest, members).ok
    requires GoesTo(filtered, dest, members, k, dest + q)
    ensures var end := Written(filtered, files, dest, members).files;
      q in tree && dest + q in end && end[dest + q] == tree[q]
  {
    var last := FindLast(filtered, dest, members, dest + q, k);
    LastMemberWins(filtered, files, dest, members, dest + q, last);
    assert members[last] in members;
    var p := PackedGoes(filtered, dest, members, tree, members[last]);
    assert p == (dest + p)[|dest|..] && q == (dest + q)[|dest|..];
  }

  lemma WrittenElsewhere(filtered: bool, files: Tree, dest: Path, members: seq<Member>, tree: Tree, q: Path)
    requires IsPackable(tree) && Packs(members, tree) && Written(filtered, files, dest, members).ok
    requires Fresh(files, dest) && q != [] && forall k: nat :: !GoesTo(filtered, dest, members, k, dest + q)
    ensures var end := Written(filtered, files, dest, members).files;
      (dest + q in end <==> q in tree) && (q in tree ==> end[dest + q] == tree[q])
  {
    var end := Written(filtered, files, dest, members).files;
    OthersAsBefore(filtered, files, dest, members, dest + q);
    EndKeepsKinds(filtered, files, dest, members);
    assert dest + q !in files;
    if dest + q in end {
      var k: nat, place :| GoesTo(filtered, dest, members, k, place) && dest + q < place;
      assert members[k] in members;
      var p := PackedGoes(filtered, dest, members, tree, members[k]);
      BelowDest(dest, q, p);
      DirAbove(tree, q, p);
    }
    if q in tree {
      assert Covers(members, tree, q);
      var k: nat, p :| k < |members| && IsPacked(members[k], tree, p) && q <= p;
      PlainNameGoes(filtered, dest, p);
      assert GoesTo(filtered, dest, members, k, dest + p);
      assert p != q;
      DirAbove(tree, q, p);
      BelowDest(dest, q, p);
      assert MemberPlaced(filtered, dest, end, members[k]);
      assert IsDir(end, dest + q);
    }
  }

  lemma BelowDest(dest: Path, q: Path, p: Path)
    ensures dest + q < dest + p <==> q < p
  {
    if dest + q < dest + p {
      assert q == (dest + q)[|dest|..] && p == (dest + p)[|dest|..];
      assert (dest + p)[..|dest + q|][|dest|..] == p[..|q|];
    }
  }

  /** Extraction leaves a directory tree. */
  lemma {:induction false} WrittenIsRooted(filtered: bool, files: Tree, dest: Path, members: seq<Member>)
    requires Rooted(files)
    ensures Rooted(Written(filtered, files, dest, members).files)
    decreases |members|
  {
    if members != [] {
      var rest := members[..|members| - 1];
      WrittenIsRooted(filtered, files, dest, rest);
      var before, last := Written(filtered, files, dest, rest), members[|members| - 1];
      var place := PlaceOf(filtered, dest, last.name);
      if before.ok && place.Some? && !Blocked(before.files, place.value, last.node) {
        PutKeepsRooted(before.files, place.value, last.node);
      }
    }
  }

  lemma PutKeepsRooted(files: Tree, p: Path, node: Node)
    requires Rooted(files) && !Blocked(files, p, node)
    ensures Rooted(WithParents(files, p)[p := node])
  {
    var after := WithParents(files, p)[p := node];
    forall q | q in after ensures ParentIsDir(after, q) {
      if |q| > 1 {
        var parent := q[..|q| - 1];
        if q == p || q in Prefixes(p) {
          assert parent == p[..|q| - 1];
          assert parent in Prefixes(p);
        } else {
          assert ParentIsDir(files, q);
        }
      }
    }
  }
}
