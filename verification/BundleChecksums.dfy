/**
 Model of backend/app/platform/bundle_checksums.py and bundle_integrity.py: reading a checksum file and
 comparing it with a bundle tree, before installation and again at boot.
 */
module BundleChecksums {
  import opened Text

  type Path = seq<string>    // components below the root
  datatype Node = Dir | File(data: string)
  type Tree = map<Path, Node>
  type Digests = map<string, string>    // posix path, digest

  // ---- Paths -------------------------------------------------------------------------------

  predicate IsName(s: string) {
    s != "" && '/' !in s
  }

  ghost predicate ProperPaths(tree: Tree) {
    forall p :: p in tree ==> p != [] && forall i :: 0 <= i < |p| ==> IsName(p[i])
  }

  predicate IsDir(tree: Tree, p: Path) {
    p in tree && tree[p].Dir?
  }

  ghost predicate ParentIsDir(tree: Tree, p: Path) {
    |p| > 1 ==> IsDir(tree, p[..|p| - 1])
  }

  /** In a directory tree whatever has a parent has it as a directory. */
  ghost predicate Rooted(tree: Tree) {
    forall p {:trigger ParentIsDir(tree, p)} :: p in tree ==> ParentIsDir(tree, p)
  }

  /** `path.as_posix()` */
  function Posix(p: Path): string {
    if p == [] then "" else if |p| == 1 then p[0] else p[0] + "/" + Posix(p[1..])
  }

  lemma {:induction false} SlashesSplit(a: string, x: string, b: string, y: string)
    requires '/' !in a && '/' !in b && a + "/" + x == b + "/" + y
    ensures a == b && x == y
  {
    var s := a + "/" + x;
    assert forall i :: 0 <= i < |a| ==> s[i] == a[i] != '/';
    assert forall i :: 0 <= i < |b| ==> s[i] == b[i] != '/';
    assert s[|a|] == '/' && s[|b|] == '/';
    assert a == s[..|a|] && b == s[..|b|];
    assert x == s[|a| + 1..] && y == s[|b| + 1..];
  }

  lemma {:induction false} PosixInjective(p: Path, q: Path)
    requires p != [] && q != [] && Posix(p) == Posix(q)
    requires (forall i :: 0 <= i < |p| ==> IsName(p[i])) && (forall i :: 0 <= i < |q| ==> IsName(q[i]))
    ensures p == q
  {
    SlashOnlyBetween(p);
    SlashOnlyBetween(q);
    if |p| > 1 && |q| > 1 {
      SlashesSplit(p[0], Posix(p[1..]), q[0], Posix(q[1..]));
      PosixInjective(p[1..], q[1..]);
      assert p == [p[0]] + p[1..] && q == [q[0]] + q[1..];
    }
  }

  lemma SlashOnlyBetween(p: Path)
    requires p != [] && IsName(p[0])
    ensures '/' in Posix(p) <==> |p| > 1
  {
    if |p| > 1 { assert Posix(p)[|p[0]|] == '/'; }
  }

  // ---- The checksum file -------------------------------------------------------------------

  datatype Line = Skipped | Entry(digest: string, rel: string) | Bad

  /** The length of the first blank-free run. */
  function TokenEnd(s: string): (n: nat)
    ensures n <= |s| && (n < |s| ==> IsSpace(s[n]))
    ensures forall i :: 0 <= i < n ==> !IsSpace(s[i])
  {
    if s == [] || IsSpace(s[0]) then 0 else 1 + TokenEnd(s[1..])
  }

  /** A stripped line, split once at blanks. */
  function ParseLine(raw: string): Line {
    var line := Strip(raw);
    if line == "" || line[0] == '#' then Skipped
    else
      var n := TokenEnd(line);
      if n == |line| then Bad else Entry(line[..n], LStrip(line[n..]))
  }

  function Lines(raws: seq<string>): seq<Line> {
    seq(|raws|, i requires 0 <= i < |raws| => ParseLine(raws[i]))
  }

  /** None: some line is malformed and `read_checksums` raises ValueError. */
  function Gather(lines: seq<Line>): Option<Digests> {
    if lines == [] then Some(map[])
    else
      match (Gather(lines[..|lines| - 1]), lines[|lines| - 1])
      case (Some(m), Skipped) => Some(m)
      case (Some(m), Entry(digest, rel)) => Some(m[rel := digest])
      case (_, _) => None
  }

  function Parse(raws: seq<string>): Option<Digests> {
    Gather(Lines(raws))
  }

  /** Line `k` is the last one that names `rel`. */
  ghost predicate LastFor(lines: seq<Line>, rel: string, k: nat) {
    && k < |lines| && lines[k].Entry? && lines[k].rel == rel
    && forall j :: k < j < |lines| ==> !(lines[j].Entry? && lines[j].rel == rel)
  }

  /** Reading succeeds when no line is malformed, and then the last line naming a path decides. */
  lemma {:induction false} ParseMeaning(lines: seq<Line>)
    ensures Gather(lines).Some? <==> Bad !in lines
    ensures Gather(lines).Some? ==>
              var m := Gather(lines).value;
              && (forall rel :: rel in m <==> exists k: nat :: LastFor(lines, rel, k))
              && (forall rel, k: nat :: LastFor(lines, rel, k) ==> m[rel] == lines[k].digest)
  {
    if lines != [] {
      var rest, last := lines[..|lines| - 1], lines[|lines| - 1];
      ParseMeaning(rest);
      assert lines == rest + [last];
      if Gather(lines).Some? {
        var m := Gather(lines).value;
        forall rel ensures rel in m <==> exists k: nat :: LastFor(lines, rel, k) {
          LastForMore(rest, last, rel);
          assert last.Entry? && last.rel == rel ==> LastFor(lines, rel, |rest|);
        }
        forall rel, k: nat | LastFor(lines, rel, k) ensures m[rel] == lines[k].digest {
          LastForMore(rest, last, rel);
        }
      }
    }
  }

  lemma LastForMore(lines: seq<Line>, line: Line, rel: string)
    ensures
      if line.Entry? && line.rel == rel
      then forall k: nat :: LastFor(lines + [line], rel, k) <==> k == |lines|
      else forall k: nat :: LastFor(lines + [line], rel, k) <==> LastFor(lines, rel, k)
  {
    var more := lines + [line];
    assert more[|lines|] == line;
    assert forall j :: 0 <= j < |lines| ==> more[j] == lines[j];
  }

  method ReadChecksums(text: string) returns (mapping: Option<Digests>)
    ensures mapping == Parse(SplitLines(text))
  {
    var lines := SplitLines(text);
    ghost var all := Lines(lines);
    var m: Digests := map[];
    for i := 0 to |lines|
      invariant Gather(all[..i]) == Some(m)
    {
      assert all[..i + 1][..i] == all[..i];
      var parsed := ParseLine(lines[i]);
      assert parsed == all[i];
      if parsed.Bad? {
        assert Bad in all;
        ParseMeaning(all);
        return None;
      }
      if parsed.Entry? {
        m := m[parsed.rel := parsed.digest];
      }
    }
    assert all[..|lines|] == all;
    return Some(m);
  }

  // ---- Lines -------------------------------------------------------------------------------

  /** The characters at which `str.splitlines` ends a line. */
  predicate IsBreak(c: char) {
    '\n' <= c <= '\r' || '\U{1c}' <= c <= '\U{1e}' || c in {'\U{85}', '\U{2028}', '\U{2029}'}
  }

  ghost predicate OneLine(s: string) {
    forall c :: c in s ==> !IsBreak(c)
  }

  function LineEnd(s: string): (n: nat)
    ensures n <= |s| && (n < |s| ==> IsBreak(s[n]))
    ensures forall i :: 0 <= i < n ==> !IsBreak(s[i])
  {
    if s == [] || IsBreak(s[0]) then 0 else 1 + LineEnd(s[1..])
  }

  function SplitLines(s: string): seq<string>
    decreases |s|
  {
    if s == [] then []
    else
      var n := LineEnd(s);
      if n == |s| then [s]
      else [s[..n]] + SplitLines(s[if s[n] == '\r' && n + 1 < |s| && s[n + 1] == '\n' then n + 2 else n + 1..])
  }

  // ---- Comparing a tree with its checksums ---------------------------------------------------

  const CHECKSUMS := "CHECKSUMS.sha256"
  const SIGNATURE := "signature"

  predicate IsPayload(tree: Tree, p: Path) {
    p in tree && tree[p].File? && !(|p| == 1 && p[0] in {CHECKSUMS, SIGNATURE})
  }

  function Payload(tree: Tree): set<Path> {
    set p | p in tree && IsPayload(tree, p)
  }

  /** Every file counts, but for the checksum file and the signature at the top. */
  lemma PayloadIs(tree: Tree, p: Path)
    ensures p in Payload(tree) <==>
      p in tree && tree[p] != Dir && p != ["CHECKSUMS.sha256"] && p != ["signature"]
  {
    assert |p| == 1 ==> p == [p[0]];
  }

  /** The map a correct checksum file denotes: the digest of every payload file, by posix path. */
  ghost predicate Describes(sha: string -> string, tree: Tree, m: Digests) {
    && (forall rel :: rel in m <==> exists p :: IsPayload(tree, p) && Posix(p) == rel)
    && (forall p :: IsPayload(tree, p) ==> Posix(p) in m && m[Posix(p)] == sha(tree[p].data))
  }

  datatype Finding = Unexpected(rel: string) | Mismatch(rel: string) | Missing(rel: string)

  /** The complaint about one payload file, if any. */
  function Complaint(sha: string -> string, tree: Tree, expected: Digests, p: Path): Option<Finding>
    requires IsPayload(tree, p)
  {
    if Posix(p) !in expected then Some(Unexpected(Posix(p)))
    else if expected[Posix(p)] != sha(tree[p].data) then Some(Mismatch(Posix(p)))
    else None
  }

  ghost predicate IsFinding(sha: string -> string, tree: Tree, expected: Digests, f: Finding) {
    || (exists p :: IsPayload(tree, p) && Complaint(sha, tree, expected, p) == Some(f))
    || (f.Missing? && f.rel in expected && forall p :: IsPayload(tree, p) ==> Posix(p) != f.rel)
  }

  /** There is nothing to report exactly when the checksum file describes the tree. */
  lemma NothingToReport(sha: string -> string, tree: Tree, expected: Digests)
    ensures (forall f :: !IsFinding(sha, tree, expected, f)) <==> Describes(sha, tree, expected)
  {
    if forall f :: !IsFinding(sha, tree, expected, f) {
      forall p | IsPayload(tree, p) ensures Posix(p) in expected && expected[Posix(p)] == sha(tree[p].data) {
        assert Complaint(sha, tree, expected, p).Some? ==> IsFinding(sha, tree, expected, Complaint(sha, tree, expected, p).value);
      }
      forall rel | rel in expected ensures exists p :: IsPayload(tree, p) && Posix(p) == rel {
        assert !IsFinding(sha, tree, expected, Missing(rel));
      }
    }
  }

  /** The comparison both verifiers run, over the payload files in any order. */
  method Compare(sha: string -> string, tree: Tree, expected: Digests) returns (errors: seq<Finding>)
    ensures forall f :: f in errors <==> IsFinding(sha, tree, expected, f)
  {
    errors := [];
    var seen: set<string> := {};
    var todo := Payload(tree);
    while todo != {}
      invariant todo <= Payload(tree)
      invariant forall rel :: rel in seen <==> exists p :: p in Payload(tree) - todo && Posix(p) == rel
      invariant forall f :: f in errors <==> exists p :: p in Payload(tree) - todo && Complaint(sha, tree, expected, p) == Some(f)
      decreases todo
    {
      var path :| path in todo;
      var rel := Posix(path);
      seen := seen + {rel};
      if rel !in expected {
        errors := errors + [Unexpected(rel)];
      } else if expected[rel] != sha(tree[path].data) {
        errors := errors + [Mismatch(rel)];
      }
      ghost var done := Payload(tree) - todo;
      todo := todo - {path};
      assert Payload(tree) - todo == done + {path};
    }
    assert Payload(tree) - todo == Payload(tree);
    var found := errors;
    var keys := expected.Keys;
    while keys != {}
      invariant keys <= expected.Keys
      invariant forall f :: f in errors <==> f in found || (f.Missing? && f.rel in expected.Keys - keys && f.rel !in seen)
      decreases keys
    {
      var rel :| rel in keys;
      if rel !in seen {
        errors := errors + [Missing(rel)];
      }
      keys := keys - {rel};
    }
  }

  /** `tree` carries a readable checksum file that describes it. */
  ghost predicate Verified(sha: string -> string, tree: Tree) {
    match Expected(tree)
    case None => false
    case Some(m) => Describes(sha, tree, m)
  }

  predicate HasChecksums(tree: Tree) {
    [CHECKSUMS] in tree && tree[[CHECKSUMS]].File?
  }

  function Expected(tree: Tree): Option<Digests> {
    if HasChecksums(tree) then Parse(SplitLines(tree[[CHECKSUMS]].data)) else None
  }

  datatype Verdict = Report(errors: seq<Finding>) | NoChecksums | Malformed

  /** `verify_checksums`: NoChecksums is also reported, Malformed is a raised ValueError. */
  method VerifyChecksums(sha: string -> string, tree: Tree) returns (v: Verdict)
    ensures v == NoChecksums <==> !HasChecksums(tree)
    ensures v == Malformed <==> HasChecksums(tree) && Expected(tree).None?
    ensures v == Report([]) <==> Verified(sha, tree)
    ensures v.Report? ==> Expected(tree).Some? && forall f :: f in v.errors <==> IsFinding(sha, tree, Expected(tree).value, f)
  {
    if !HasChecksums(tree) { return NoChecksums; }
    var expected := ReadChecksums(tree[[CHECKSUMS]].data);
    if expected.None? { return Malformed; }
    var errors := Compare(sha, tree, expected.value);
    NothingToReport(sha, tree, expected.value);
    assert errors != [] ==> IsFinding(sha, tree, expected.value, errors[0]);
    return Report(errors);
  }

  /** `verify_installed_tree`: false is a raised RuntimeError. It passes exactly the trees `VerifyChecksums` passes. */
  method VerifyInstalledTree(sha: string -> string, tree: Tree) returns (passed: bool)
    ensures passed <==> Verified(sha, tree)
  {
    if !HasChecksums(tree) { return false; }
    var expected := ReadChecksums(tree[[CHECKSUMS]].data);
    if expected.None? { return false; }
    var errors := Compare(sha, tree, expected.value);
    NothingToReport(sha, tree, expected.value);
    if errors != [] {
      assert IsFinding(sha, tree, expected.value, errors[0]);
      return false;
    }
    return true;
  }

  // ---- Which trees a checksum file can describe ----------------------------------------------

  /** No blank at the ends and no line break inside. */
  ghost predicate Listable(rel: string) {
    && rel != "" && !IsSpace(rel[0]) && !IsSpace(rel[|rel| - 1])
    && OneLine(rel)
  }

  /** A hexadecimal digest is one token and no comment. */
  ghost predicate IsDigest(d: string) {
    d != "" && d[0] != '#' && forall c :: c in d ==> !IsSpace(c)
  }

  lemma {:induction false} LStripSuffix(s: string)
    ensures |LStrip(s)| <= |s| && LStrip(s) == s[|s| - |LStrip(s)|..]
  {
    if s != [] && IsSpace(s[0]) { LStripSuffix(s[1..]); }
  }

  lemma {:induction false} RStripPrefix(s: string)
    ensures |RStrip(s)| <= |s| && RStrip(s) == s[..|RStrip(s)|]
  {
    if s != [] && IsSpace(s[|s| - 1]) { RStripPrefix(s[..|s| - 1]); }
  }

  /** A path read from a line can be listed. */
  lemma EntriesAreListable(raw: string)
    requires OneLine(raw)
    ensures ParseLine(raw).Entry? ==> Listable(ParseLine(raw).rel)
  {
    var line := Strip(raw);
    StripTrims(raw);
    LStripSuffix(raw);
    RStripPrefix(LStrip(raw));
    if ParseLine(raw).Entry? {
      var tail := line[TokenEnd(line)..];
      LStripSuffix(tail);
      LStripTrims(tail);
      assert tail[|tail| - 1] == line[|line| - 1];
      assert tail[|tail| - 1] in tail;
      assert forall c :: c in LStrip(tail) ==> c in tail && c in line && c in raw;
    }
  }

  lemma {:induction false} LinesHaveNoBreaks(s: string)
    ensures forall l :: l in SplitLines(s) ==> OneLine(l)
    decreases |s|
  {
    if s != [] && LineEnd(s) < |s| {
      var n := LineEnd(s);
      LinesHaveNoBreaks(s[if s[n] == '\r' && n + 1 < |s| && s[n + 1] == '\n' then n + 2 else n + 1..]);
    }
  }

  /** Every path a checksum file names can be listed. */
  lemma ReadPathsAreListable(text: string, rel: string)
    requires Parse(SplitLines(text)).Some? && rel in Parse(SplitLines(text)).value
    ensures Listable(rel)
  {
    var lines := SplitLines(text);
    ParseMeaning(Lines(lines));
    var k: nat :| LastFor(Lines(lines), rel, k);
    LinesHaveNoBreaks(text);
    assert lines[k] in lines;
    EntriesAreListable(lines[k]);
  }

  lemma {:induction false} TokenEndIs(s: string, n: nat)
    requires n < |s| && IsSpace(s[n]) && forall i :: 0 <= i < n ==> !IsSpace(s[i])
    ensures TokenEnd(s) == n
  {
    if n > 0 { TokenEndIs(s[1..], n - 1); }
  }

  lemma {:induction false} LineEndIs(s: string, n: nat)
    requires n < |s| && IsBreak(s[n]) && forall i :: 0 <= i < n ==> !IsBreak(s[i])
    ensures LineEnd(s) == n
  {
    if n > 0 { LineEndIs(s[1..], n - 1); }
  }

  /** A digest, two blanks and a listable path read back. */
  lemma WrittenLineReads(digest: string, rel: string)
    requires IsDigest(digest) && Listable(rel)
    ensures ParseLine(digest + "  " + rel) == Entry(digest, rel)
  {
    var raw := digest + "  " + rel;
    assert raw[0] == digest[0] && raw[|raw| - 1] == rel[|rel| - 1];
    assert digest[0] in digest;
    StripKeeps(raw);
    TokenEndIs(raw, |digest|);
    assert raw[..|digest|] == digest;
    var tail := raw[|digest|..];
    assert tail[1..] == " " + rel && tail[1..][1..] == rel;
    assert LStrip(tail) == LStrip(" " + rel) == LStrip(rel) == rel;
  }

  function Render(lines: seq<string>): string {
    if lines == [] then "" else lines[0] + "\n" + Render(lines[1..])
  }

  lemma BreaksAre(c: char)
    ensures IsBreak(c) <==> c in {
      '\n', '\r', '\U{0b}', '\U{0c}', '\U{1c}', '\U{1d}', '\U{1e}', '\U{85}', '\U{2028}', '\U{2029}'}
  {
  }

  /** A line ends at any of them, and at a carriage return and a line feed together. */
  lemma LineEndsAt(line: string, end: string, rest: string)
    requires OneLine(line) && end != "" && IsBreak(end[0])
    requires end == "\r\n" || (|end| == 1 && (end[0] == '\r' && rest != "" ==> rest[0] != '\n'))
    ensures SplitLines(line + (end + rest)) == [line] + SplitLines(rest)
  {
    var s, n := line + (end + rest), |line|;
    assert s[n] == end[0] && s[..n] == line && s[n + |end|..] == rest;
    assert n + 1 < |s| ==> s[n + 1] == (end + rest)[1];
    forall i | 0 <= i < n ensures !IsBreak(s[i]) { assert line[i] in line; }
    LineEndIs(s, n);
  }

  lemma {:induction false} RenderSplits(lines: seq<string>)
    requires forall l :: l in lines ==> OneLine(l)
    ensures SplitLines(Render(lines)) == lines
  {
    if lines != [] {
      assert lines[0] in lines;
      LineEndsAt(lines[0], "\n", Render(lines[1..]));
      assert lines[0] + "\n" + Render(lines[1..]) == lines[0] + ("\n" + Render(lines[1..]));
      RenderSplits(lines[1..]);
      assert lines == [lines[0]] + lines[1..];
    }
  }

  /** `m` holds the digests of exactly the files `done`. */
  ghost predicate Digested(sha: string -> string, tree: Tree, done: set<Path>, m: Digests) {
    && done <= Payload(tree)
    && m.Keys == Names(done)
    && (forall p :: p in done ==> m[Posix(p)] == sha(tree[p].data))
  }

  ghost function Names(files: set<Path>): (r: set<string>)
    ensures forall p :: p in files ==> Posix(p) in r
  {
    set p | p in files :: Posix(p)
  }

  ghost predicate Lists(sha: string -> string, tree: Tree, done: set<Path>, lines: seq<string>) {
    match Parse(lines)
    case None => false
    case Some(m) => Digested(sha, tree, done, m)
  }

  lemma NewName(tree: Tree, done: set<Path>, p: Path)
    requires ProperPaths(tree) && done <= Payload(tree) && p in Payload(tree) && p !in done
    ensures Posix(p) !in Names(done) && Names(done + {p}) == Names(done) + {Posix(p)}
  {
    forall q | q in done ensures Posix(q) != Posix(p) {
      if Posix(q) == Posix(p) { PosixInjective(p, q); }
    }
  }

  lemma OneMoreDigest(sha: string -> string, tree: Tree, done: set<Path>, m: Digests, p: Path)
    requires ProperPaths(tree) && Digested(sha, tree, done, m) && p in Payload(tree) && p !in done
    ensures Digested(sha, tree, done + {p}, m[Posix(p) := sha(tree[p].data)])
  {
    NewName(tree, done, p);
    forall q | q in done ensures Posix(q) != Posix(p) {
      assert Posix(q) in Names(done);
    }
  }

  lemma ParseOneMore(lines: seq<string>, line: string, digest: string, rel: string)
    requires Parse(lines).Some? && ParseLine(line) == Entry(digest, rel)
    ensures Parse(lines + [line]) == Some(Parse(lines).value[rel := digest])
  {
    assert Lines(lines + [line]) == Lines(lines) + [ParseLine(line)];
    assert Lines(lines + [line])[..|lines|] == Lines(lines);
  }

  function LineFor(sha: string -> string, tree: Tree, p: Path): string
    requires p in tree && tree[p].File?
  {
    sha(tree[p].data) + "  " + Posix(p)
  }

  lemma ListOneMore(sha: string -> string, tree: Tree, done: set<Path>, lines: seq<string>, p: Path)
    requires ProperPaths(tree) && Lists(sha, tree, done, lines) && p in Payload(tree) && p !in done
    requires IsDigest(sha(tree[p].data)) && Listable(Posix(p))
    ensures Lists(sha, tree, done + {p}, lines + [LineFor(sha, tree, p)])
    ensures OneLine(LineFor(sha, tree, p))
  {
    var digest := sha(tree[p].data);
    WrittenLineReads(digest, Posix(p));
    WrittenLineHasNoBreak(digest, Posix(p));
    ParseOneMore(lines, LineFor(sha, tree, p), digest, Posix(p));
    OneMoreDigest(sha, tree, done, Parse(lines).value, p);
  }

  /** Lines for the payload files `todo`. */
  lemma {:induction false} WriteLines(sha: string -> string, tree: Tree, todo: set<Path>) returns (lines: seq<string>)
    requires ProperPaths(tree) && todo <= Payload(tree)
    requires forall d :: IsDigest(sha(d))
    requires forall p :: p in todo ==> Listable(Posix(p))
    ensures forall l :: l in lines ==> OneLine(l)
    ensures Lists(sha, tree, todo, lines)
    decreases |todo|
  {
    if todo == {} {
      lines := [];
    } else {
      var p :| p in todo;
      var before := WriteLines(sha, tree, todo - {p});
      ListOneMore(sha, tree, todo - {p}, before, p);
      assert todo - {p} + {p} == todo;
      lines := before + [LineFor(sha, tree, p)];
    }
  }

  lemma WrittenLineHasNoBreak(digest: string, rel: string)
    requires IsDigest(digest) && Listable(rel)
    ensures OneLine(digest + "  " + rel)
  {
    forall c | c in digest + "  " + rel ensures !IsBreak(c) {
      assert c in digest || c == ' ' || c in rel;
    }
  }

  ghost function WithChecksums(tree: Tree, text: string): Tree {
    tree[[CHECKSUMS] := File(text)]
  }

  lemma SamePayload(tree: Tree, text: string)
    ensures forall p :: IsPayload(WithChecksums(tree, text), p) <==> IsPayload(tree, p)
    ensures forall p :: IsPayload(tree, p) ==> WithChecksums(tree, text)[p] == tree[p]
  {
  }

  lemma VerifiedPathsAreListable(sha: string -> string, tree: Tree, text: string, p: Path)
    requires Verified(sha, WithChecksums(tree, text)) && p in Payload(tree)
    ensures Listable(Posix(p))
  {
    SamePayload(tree, text);
    assert WithChecksums(tree, text)[[CHECKSUMS]] == File(text);
    ReadPathsAreListable(text, Posix(p));
  }

  lemma ListablePathsVerify(sha: string -> string, tree: Tree) returns (text: string)
    requires ProperPaths(tree) && forall d :: IsDigest(sha(d))
    requires forall p :: p in Payload(tree) ==> Listable(Posix(p))
    ensures Verified(sha, WithChecksums(tree, text))
  {
    var lines := WriteLines(sha, tree, Payload(tree));
    RenderSplits(lines);
    text := Render(lines);
    SamePayload(tree, text);
    assert WithChecksums(tree, text)[[CHECKSUMS]] == File(text);
  }

  /**
   A checksum file that makes the tree verify exists exactly when every payload path can be listed:
   a file whose path starts or ends with a blank, or holds a line break, can never be verified.
   */
  lemma VerifiableExactly(sha: string -> string, tree: Tree)
    requires ProperPaths(tree) && forall d :: IsDigest(sha(d))
    ensures (exists text :: Verified(sha, WithChecksums(tree, text)))
            <==> forall p :: p in Payload(tree) ==> Listable(Posix(p))
  {
    if text :| Verified(sha, WithChecksums(tree, text)) {
      forall p | p in Payload(tree) { VerifiedPathsAreListable(sha, tree, text, p); }
    }
    if forall p :: p in Payload(tree) ==> Listable(Posix(p)) {
      var text := ListablePathsVerify(sha, tree);
    }
  }

  /** Such a tree: a manifest and a file whose name starts with a blank. */
  lemma BlankNameNeverVerifies(sha: string -> string, text: string, manifest: string, notes: string)
    ensures var tree := map[["manifest.json"] := File(manifest), [" notes"] := File(notes)];
      ProperPaths(tree) && !Verified(sha, WithChecksums(tree, text))
  {
    var tree := map[["manifest.json"] := File(manifest), [" notes"] := File(notes)];
    assert [" notes"] in Payload(tree) && !Listable(Posix([" notes"]));
    if Verified(sha, WithChecksums(tree, text)) {
      VerifiedPathsAreListable(sha, tree, text, [" notes"]);
    }
  }
}
