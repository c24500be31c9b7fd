/**
 Model of check_and_ingest_data_folder in backend/app/scheduler.py: the loop over new files, the processed
 set, and the scope a file is ingested under. Scans do not overlap; a restart empties the processed set.
 */
module FolderIngest {
  import opened Text

  type Project = nat

  /**
   How the lookup of a file's project goes. NotOpened: something raises before `project_id` is reset (an
   import, or SessionLocal itself). Failed: something raises after that and before the project is found (the
   id in the name, the connection, the query); the exception is swallowed.
   */
  datatype Lookup = NotOpened | Failed | Completed

  /**
   A file of the data folder: the project of the crawl source its name refers to (if any), how looking it up
   goes, and whether ingestion yields an index.
   */
  datatype Item = Item(path: string, supported: bool, own: Option<Project>, lookup: Lookup, indexed: bool)

  /** `scope` is the project passed to ingestion; Unbound: the attempt fails before that. */
  datatype Scope = Unbound | Bound(project: Option<Project>)
  datatype Attempt = Attempt(path: string, scope: Scope, ok: bool)

  /** `log` holds all attempts ever, `since` says how many of them came before the last restart. */
  datatype State = State(processed: set<string>, log: seq<Attempt>, since: nat)

  const INITIAL := State({}, [], 0)

  /** The supported files not processed yet, in listing order. */
  function NewFiles(listing: seq<Item>, processed: set<string>): seq<Item> {
    if listing == [] then []
    else
      var last := listing[|listing| - 1];
      NewFiles(listing[..|listing| - 1], processed) + if last.supported && last.path !in processed then [last] else []
  }

  /** `project_id` lives on from file to file until it is reset. */
  function ScopeAt(files: seq<Item>, n: nat): Scope
    requires n <= |files|
  {
    if n == 0 then Unbound
    else
      match files[n - 1].lookup
      case NotOpened => ScopeAt(files, n - 1)
      case Failed => Bound(None)
      case Completed => Bound(files[n - 1].own)
  }

  function AttemptAt(files: seq<Item>, i: nat): Attempt
    requires i < |files|
  {
    var scope := ScopeAt(files, i + 1);
    Attempt(files[i].path, scope, scope.Bound? && files[i].indexed)
  }

  function Handle(s: State, files: seq<Item>, n: nat): State
    requires n <= |files|
  {
    if n == 0 then s
    else
      var before, a := Handle(s, files, n - 1), AttemptAt(files, n - 1);
      State(if a.ok then before.processed + {a.path} else before.processed, before.log + [a], before.since)
  }

  /** A scan (without a pipeline nothing is attempted), or a new process: the processed set is kept in memory. */
  datatype Event = Scan(listing: seq<Item>, pipeline: bool) | Restart

  function After(s: State, e: Event): State {
    match e
    case Scan(listing, pipeline) =>
      var files := NewFiles(listing, s.processed);
      if pipeline then Handle(s, files, |files|) else s
    case Restart => State({}, s.log, |s.log|)
  }

  function Run(s: State, events: seq<Event>): State {
    if events == [] then s else After(Run(s, events[..|events| - 1]), events[|events| - 1])
  }

  class Scheduler {
    var processed: set<string>    // _processed_files
    ghost var log: seq<Attempt>
    ghost var since: nat

    constructor ()
      ensures State(processed, log, since) == INITIAL
    {
      processed, log, since := {}, [], 0;
    }

    /** A new process starts with an empty set. */
    method StartAgain()
      modifies this
      ensures State(processed, log, since) == After(old(State(processed, log, since)), Restart)
    {
      processed, since := {}, |log|;
    }

    method CheckDataFolder(listing: seq<Item>, pipeline: bool)
      modifies this
      ensures State(processed, log, since) == After(old(State(processed, log, since)), Scan(listing, pipeline))
    {
      var files: seq<Item> := [];
      for i := 0 to |listing|
        invariant files == NewFiles(listing[..i], processed)
      {
        assert listing[..i + 1][..i] == listing[..i];
        if listing[i].supported && listing[i].path !in processed {
          files := files + [listing[i]];
        }
      }
      assert listing[..|listing|] == listing;
      if files == [] || !pipeline {
        return;
      }
      var projectId := Unbound;
      for i := 0 to |files|
        invariant projectId == ScopeAt(files, i)
        invariant State(processed, log, since) == Handle(old(State(processed, log, since)), files, i)
      {
        if files[i].lookup != NotOpened {
          projectId := Bound(None);
          if files[i].lookup == Completed && files[i].own.Some? {
            projectId := Bound(files[i].own);
          }
        }
        var ok := projectId.Bound? && files[i].indexed;
        log := log + [Attempt(files[i].path, projectId, ok)];
        if ok {
          processed := processed + {files[i].path};
        }
      }
    }
  }

  // ---- Over any sequence of scans and restarts -----------------------------------------------------

  /** A directory lists a path once. */
  ghost predicate IsListing(listing: seq<Item>) {
    forall i, j :: 0 <= i < j < |listing| ==> listing[i].path != listing[j].path
  }

  ghost predicate AreListings(events: seq<Event>) {
    forall i :: 0 <= i < |events| && events[i].Scan? ==> IsListing(events[i].listing)
  }

  /** `p` was ingested successfully since the last restart. */
  ghost predicate Succeeded(s: State, p: string) {
    exists i :: s.since <= i < |s.log| && s.log[i].ok && s.log[i].path == p
  }

  /**
   Since the last restart: the processed set is the set of paths ingested successfully, and none is attempted
   after its success.
   */
  ghost predicate Inv(s: State) {
    && s.since <= |s.log|
    && (forall p :: p in s.processed <==> Succeeded(s, p))
    && (forall i, j :: s.since <= i < j < |s.log| && s.log[i].ok ==> s.log[i].path != s.log[j].path)
  }

  lemma {:induction false} NewFilesMeaning(listing: seq<Item>, processed: set<string>)
    ensures forall f :: f in NewFiles(listing, processed) <==> f in listing && f.supported && f.path !in processed
  {
    if listing != [] {
      var rest, last := listing[..|listing| - 1], listing[|listing| - 1];
      NewFilesMeaning(rest, processed);
      assert listing == rest + [last];
    }
  }

  lemma {:induction false} NewFilesAreListing(listing: seq<Item>, processed: set<string>)
    requires IsListing(listing)
    ensures IsListing(NewFiles(listing, processed))
  {
    if listing != [] {
      var rest, last := listing[..|listing| - 1], listing[|listing| - 1];
      NewFilesAreListing(rest, processed);
      NewFilesMeaning(rest, processed);
      var before := NewFiles(rest, processed);
      forall i | 0 <= i < |before| ensures before[i].path != last.path {
        assert before[i] in rest;
      }
    }
  }

  lemma {:induction false} HandleKeepsInv(s: State, files: seq<Item>, n: nat)
    requires Inv(s) && IsListing(files) && n <= |files| && forall f :: f in files ==> f.path !in s.processed
    ensures Inv(Handle(s, files, n))
    ensures forall p :: p in Handle(s, files, n).processed ==> p in s.processed || exists i :: 0 <= i < n && files[i].path == p
  {
    if n > 0 {
      HandleKeepsInv(s, files, n - 1);
      var before, a := Handle(s, files, n - 1), AttemptAt(files, n - 1);
      assert files[n - 1] in files && files[n - 1].path !in before.processed;
      var after := Handle(s, files, n);
      assert after.log[|before.log|] == a;
      forall p ensures p in after.processed <==> Succeeded(after, p) {
        if i :| before.since <= i < |before.log| && before.log[i].ok && before.log[i].path == p {
          assert after.log[i] == before.log[i];
        }
      }
    }
  }

  /**
   Over any sequence of scans and restarts: between two restarts each path is ingested successfully at most
   once, counts as processed then, and is left alone.
   */
  lemma {:induction false} RunKeepsInv(events: seq<Event>)
    requires AreListings(events)
    ensures Inv(Run(INITIAL, events))
  {
    if events != [] {
      RunKeepsInv(events[..|events| - 1]);
      var s, e := Run(INITIAL, events[..|events| - 1]), events[|events| - 1];
      if e.Scan? {
        var files := NewFiles(e.listing, s.processed);
        NewFilesMeaning(e.listing, s.processed);
        NewFilesAreListing(e.listing, s.processed);
        HandleKeepsInv(s, files, |files|);
      }
    }
  }

  lemma {:induction false} HandleLog(s: State, files: seq<Item>, n: nat)
    requires n <= |files|
    ensures |Handle(s, files, n).log| == |s.log| + n && s.log <= Handle(s, files, n).log && Handle(s, files, n).since == s.since
    ensures forall i :: 0 <= i < n ==> Handle(s, files, n).log[|s.log| + i] == AttemptAt(files, i)
  {
    if n > 0 {
      HandleLog(s, files, n - 1);
    }
  }

  lemma AttemptedPath(s: State, files: seq<Item>, k: nat)
    requires k < |files|
    ensures var log := Handle(s, files, |files|).log; |log| == |s.log| + |files| && log[|s.log| + k].path == files[k].path
  {
    HandleLog(s, files, |files|);
    assert AttemptAt(files, k).path == files[k].path;
  }

  /** `p` is attempted by the scan that took `before` to `after`. */
  ghost predicate Attempted(before: State, after: State, p: string) {
    exists i :: |before.log| <= i < |after.log| && after.log[i].path == p
  }

  lemma ScanAttempts(s: State, scan: Event, p: string)
    requires scan.Scan? && scan.pipeline
    ensures s.log <= After(s, scan).log
    ensures Attempted(s, After(s, scan), p)
       <==> p !in s.processed && exists f :: f in scan.listing && f.supported && f.path == p
  {
    var later, files := After(s, scan).log, NewFiles(scan.listing, s.processed);
    NewFilesMeaning(scan.listing, s.processed);
    HandleLog(s, files, |files|);
    if i :| |s.log| <= i < |later| && later[i].path == p {
      AttemptedPath(s, files, i - |s.log|);
      assert files[i - |s.log|] in files;
    }
    if f :| f in scan.listing && f.supported && f.path == p && p !in s.processed {
      assert f in files;
      var k :| 0 <= k < |files| && files[k] == f;
      AttemptedPath(s, files, k);
    }
  }

  /**
   A scan with a pipeline attempts exactly the supported files without a success since the last restart; so a
   file that failed before is attempted again as long as it is there.
   */
  lemma FailedFilesAreRetried(events: seq<Event>, scan: Event, p: string)
    requires AreListings(events) && scan.Scan? && scan.pipeline
    ensures var s := Run(INITIAL, events);
      && s.log <= After(s, scan).log
      && (Attempted(s, After(s, scan), p)
          <==> (exists f :: f in scan.listing && f.supported && f.path == p) && !Succeeded(s, p))
  {
    RunKeepsInv(events);
    ScanAttempts(Run(INITIAL, events), scan, p);
  }

  /** Without a pipeline a scan changes nothing. */
  lemma NoPipelineNoAttempt(s: State, listing: seq<Item>)
    ensures After(s, Scan(listing, false)) == s
  {
  }

  /** After a restart every supported file that is there is attempted again, ingested before or not. */
  lemma RestartForgets(events: seq<Event>, scan: Event, p: string)
    requires AreListings(events) && scan.Scan? && scan.pipeline
    ensures var s := Run(INITIAL, events + [Restart]);
      Attempted(s, After(s, scan), p) <==> exists f :: f in scan.listing && f.supported && f.path == p
  {
    assert (events + [Restart])[..|events|] == events;
    ScanAttempts(Run(INITIAL, events + [Restart]), scan, p);
  }

  // ---- The scope a file is ingested under ------------------------------------------------------------

  /** `j` is the last file before `i` for which the session opened. */
  ghost predicate LastOpened(files: seq<Item>, i: nat, j: nat) {
    && j < i <= |files| && files[j].lookup != NotOpened
    && forall m :: j < m < i ==> files[m].lookup == NotOpened
  }

  /** What a file for which the session opened leaves in `project_id`. */
  function Left(f: Item): Option<Project> {
    if f.lookup == Completed then f.own else None
  }

  /** The lookup completed; or it failed where nothing is owed; or what an earlier file left happens to be right. */
  ghost predicate RightlyScoped(files: seq<Item>, i: nat)
    requires i < |files|
  {
    match files[i].lookup
    case Completed => true
    case Failed => files[i].own.None?
    case NotOpened => exists j: nat :: LastOpened(files, i, j) && Left(files[j]) == files[i].own
  }

  /** The lookup failed although a project is owed, or an earlier file left another project. */
  ghost predicate Misfiled(files: seq<Item>, i: nat)
    requires i < |files|
  {
    match files[i].lookup
    case Completed => false
    case Failed => files[i].own.Some?
    case NotOpened => exists j: nat :: LastOpened(files, i, j) && Left(files[j]) != files[i].own
  }

  lemma {:induction false} LeftBy(files: seq<Item>, n: nat, j: nat)
    requires n <= |files| && LastOpened(files, n, j)
    ensures ScopeAt(files, n) == Bound(Left(files[j]))
  {
    if j < n - 1 {
      LeftBy(files, n - 1, j);
    }
  }

  lemma {:induction false} FindOpened(files: seq<Item>, n: nat) returns (j: nat)
    requires n <= |files| && ScopeAt(files, n).Bound?
    ensures LastOpened(files, n, j)
  {
    if files[n - 1].lookup != NotOpened {
      j := n - 1;
    } else {
      j := FindOpened(files, n - 1);
    }
  }

  lemma ScopeOfAttempt(files: seq<Item>, i: nat)
    requires i < |files|
    ensures AttemptAt(files, i).scope == Bound(files[i].own) <==> RightlyScoped(files, i)
    ensures AttemptAt(files, i).scope.Bound? && AttemptAt(files, i).scope != Bound(files[i].own) <==> Misfiled(files, i)
  {
    forall j: nat | LastOpened(files, i, j) ensures ScopeAt(files, i) == Bound(Left(files[j])) {
      LeftBy(files, i, j);
    }
    if ScopeAt(files, i).Bound? {
      var j := FindOpened(files, i);
    }
  }

  /**
   In every scan, and after any history: a file is attempted under the project it belongs to exactly when it
   is `RightlyScoped`, and it is ingested into the wrong place exactly when it is `Misfiled` and has an index.
   */
  lemma ScopeIsOwn(s: State, scan: Event, k: nat)
    requires scan.Scan? && scan.pipeline && k < |NewFiles(scan.listing, s.processed)|
    ensures var files, log := NewFiles(scan.listing, s.processed), After(s, scan).log;
      && |log| == |s.log| + |files| && log[|s.log| + k].path == files[k].path
      && (log[|s.log| + k].scope == Bound(files[k].own) <==> RightlyScoped(files, k))
      && (log[|s.log| + k].ok && log[|s.log| + k].scope != Bound(files[k].own) <==> files[k].indexed && Misfiled(files, k))
  {
    var files := NewFiles(scan.listing, s.processed);
    HandleLog(s, files, |files|);
    assert After(s, scan).log[|s.log| + k] == AttemptAt(files, k);
    ScopeOfAttempt(files, k);
  }

  ghost predicate NoRestart(events: seq<Event>) {
    forall k :: 0 <= k < |events| ==> events[k].Scan?
  }

  lemma {:induction false} RunExtends(events: seq<Event>, more: seq<Event>)
    requires NoRestart(more)
    ensures Run(INITIAL, events).log <= Run(INITIAL, events + more).log
    ensures Run(INITIAL, events).since == Run(INITIAL, events + more).since
  {
    if more == [] {
      assert events + more == events;
    } else {
      var rest, last := more[..|more| - 1], more[|more| - 1];
      RunExtends(events, rest);
      assert (events + more)[..|events + more| - 1] == events + rest;
      var s := Run(INITIAL, events + rest);
      var files := NewFiles(last.listing, s.processed);
      HandleLog(s, files, |files|);
    }
  }

  /** Whatever place it went to, a file that was ingested is not attempted again before a restart, however many scans follow. */
  lemma SuccessIsFinal(events: seq<Event>, more: seq<Event>, i: nat)
    requires AreListings(events + more) && NoRestart(more)
    requires Run(INITIAL, events).since <= i < |Run(INITIAL, events).log| && Run(INITIAL, events).log[i].ok
    ensures var log, later := Run(INITIAL, events).log, Run(INITIAL, events + more).log;
      && log <= later && log[i].path in Run(INITIAL, events + more).processed
      && forall j :: i < j < |later| ==> later[j].path != log[i].path
  {
    RunExtends(events, more);
    RunKeepsInv(events + more);
    assert Succeeded(Run(INITIAL, events + more), Run(INITIAL, events + more).log[i].path);
  }

  /** A file of a project, with an index, whose lookup fails. */
  ghost predicate IsLost(f: Item) {
    f.supported && f.own.Some? && f.lookup == Failed && f.indexed
  }

  /**
   After any history: a new file of a project whose lookup fails is ingested without a project, and no scan
   before the next restart brings it to its project.
   */
  lemma ExportGoesUnscoped(events: seq<Event>, listing: seq<Item>, lost: Item, more: seq<Event>) returns (i: nat)
    requires AreListings(events + [Scan(listing, true)] + more) && NoRestart(more)
    requires lost in listing && IsLost(lost) && lost.path !in Run(INITIAL, events).processed
    ensures var log := Run(INITIAL, events + [Scan(listing, true)] + more).log;
      && |Run(INITIAL, events).log| <= i < |log| && log[i] == Attempt(lost.path, Bound(None), true)
      && forall j :: i < j < |log| ==> log[j].path != lost.path
  {
    var s, scan := Run(INITIAL, events), Scan(listing, true);
    i := LostInScan(s, listing, lost);
    assert (events + [scan])[..|events|] == events;
    assert Run(INITIAL, events + [scan]) == After(s, scan);
    SinceIsPast(events);
    SuccessIsFinal(events + [scan], more, i);
  }

  lemma LostInScan(s: State, listing: seq<Item>, lost: Item) returns (i: nat)
    requires lost in listing && IsLost(lost) && lost.path !in s.processed
    ensures var after := After(s, Scan(listing, true));
      && after.since == s.since
      && |s.log| <= i < |after.log| && after.log[i] == Attempt(lost.path, Bound(None), true)
  {
    var files := NewFiles(listing, s.processed);
    NewFilesMeaning(listing, s.processed);
    HandleLog(s, files, |files|);
    var k :| 0 <= k < |files| && files[k] == lost;
    i := |s.log| + k;
    assert AttemptAt(files, k) == Attempt(lost.path, Bound(None), true);
  }

  lemma SinceIsPast(events: seq<Event>)
    ensures Run(INITIAL, events).since <= |Run(INITIAL, events).log|
    decreases |events|
  {
    if events != [] {
      var s, e := Run(INITIAL, events[..|events| - 1]), events[|events| - 1];
      SinceIsPast(events[..|events| - 1]);
      if e.Scan? {
        var files := NewFiles(e.listing, s.processed);
        HandleLog(s, files, |files|);
      }
    }
  }

  /** Such a file: the export of a source of project 7, when the database cannot be asked. */
  const EXPORT :=
    Item("crawl_export_0b6c4c1e-8d0e-4f5a-9a37-2f1d6f3b8c90_20250101_120000.csv", true, Some(7), Failed, true)

  lemma LostExport()
    ensures Run(INITIAL, [Scan([EXPORT], true)]) == State({EXPORT.path}, [Attempt(EXPORT.path, Bound(None), true)], 0)
  {
    LostAlone(EXPORT);
  }

  lemma LostAlone(lost: Item)
    requires IsLost(lost)
    ensures Run(INITIAL, [Scan([lost], true)]) == State({lost.path}, [Attempt(lost.path, Bound(None), true)], 0)
  {
    var scan := Scan([lost], true);
    assert [scan][..0] == [] && [lost][..0] == [];
    assert NewFiles([lost], {}) == [lost];
    assert AttemptAt([lost], 0) == Attempt(lost.path, Bound(None), true);
    assert Handle(INITIAL, [lost], 0) == INITIAL;
  }

  /** When its session does not open at all, a file goes into the project of the file before it. */
  lemma StaleScope(s: State, a: Item, b: Item)
    requires a.supported && a.path !in s.processed && a.lookup == Completed
    requires b.supported && b.path !in s.processed && b.lookup == NotOpened
    ensures After(s, Scan([a, b], true)).log ==
      s.log + [Attempt(a.path, Bound(a.own), a.indexed), Attempt(b.path, Bound(a.own), b.indexed)]
  {
    var files := [a, b];
    assert files[..1] == [a] && [a][..0] == [];
    assert NewFiles([a], s.processed) == [a];
    assert NewFiles(files, s.processed) == files;
    assert ScopeAt(files, 1) == Bound(a.own);
    assert Handle(s, files, 1).log == s.log + [AttemptAt(files, 0)];
  }
}
