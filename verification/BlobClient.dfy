/**
 Model of backend/app/platform/blob_store.py, get_client: double-checked initialisation of one shared
 client and of its bucket, run by any number of threads. Every read or write of a module global and
 every call that can fail is one step.
 */
module BlobClient {
  import opened Text

  type Thread = nat
  type Client = nat    // identity of a Minio object

  /** The next step of a thread. `Holding` steps are inside `with _lock`. */
  datatype PC =
    | Start                            // reads _client
    | FastReady                        // reads _bucket_ready
    | FastReturn                       // reads _client again to return it
    | Configured                       // reads the settings
    | Acquire
    | TestClient | Construct | TestReady | BucketExists | MakeBucket | SetReady | Result
    | Returned(client: Option<Client>)
    | Raised
  {
    predicate Holding() {
      TestClient? || Construct? || TestReady? || BucketExists? || MakeBucket? || SetReady? || Result?
    }
  }

  /** What the world answers when the current step asks it something. */
  datatype Answer = Yes(made: Client) | No | Raises

  datatype State = State(
    client: Option<Client>, ready: bool, owner: Option<Thread>,
    pcs: map<Thread, PC>,
    stored: seq<Client>)    // every object ever assigned to _client

  const INITIAL := State(None, false, None, map[], [])

  function Pc(s: State, t: Thread): PC {
    if t in s.pcs then s.pcs[t] else Start
  }

  function Goto(s: State, t: Thread, pc: PC): State {
    s.(pcs := s.pcs[t := pc])
  }

  /** Leaving the `with` block, by return or by exception, frees the lock. */
  function Leave(s: State, t: Thread, pc: PC): State {
    Goto(s.(owner := None), t, pc)
  }

  function Step(s: State, t: Thread, a: Answer): State {
    match Pc(s, t)
    case Start => Goto(s, t, if s.client.Some? then FastReady else Configured)
    case FastReady => Goto(s, t, if s.ready then FastReturn else Configured)
    case FastReturn => Goto(s, t, Returned(s.client))
    case Configured => Goto(s, t, if a.Yes? then Acquire else Raised)
    case Acquire => if s.owner.None? then Goto(s.(owner := Some(t)), t, TestClient) else s
    case TestClient => Goto(s, t, if s.client.None? then Construct else TestReady)
    case Construct =>
      if a.Yes? then Goto(s.(client := Some(a.made), stored := s.stored + [a.made]), t, TestReady)
      else Leave(s, t, Raised)
    case TestReady => Goto(s, t, if s.ready then Result else BucketExists)
    case BucketExists =>
      (match a
       case Yes(_) => Goto(s, t, SetReady)
       case No => Goto(s, t, MakeBucket)
       case Raises => Leave(s, t, Raised))
    case MakeBucket =>
      if a.Yes? then Goto(s, t, SetReady) else Leave(s, t, Raised)
    case SetReady => Goto(s.(ready := true), t, Result)
    case Result => Leave(s, t, Returned(s.client))
    case Returned(_) => Goto(s, t, Start)
    case Raised => Goto(s, t, Start)
  }

  /** One schedule: which thread moves, and what the world answers it. */
  type Schedule = seq<(Thread, Answer)>

  function Run(s: State, schedule: Schedule): State {
    if schedule == [] then s
    else
      var last := schedule[|schedule| - 1];
      Step(Run(s, schedule[..|schedule| - 1]), last.0, last.1)
  }

  // ---- The inductive invariant -------------------------------------------------------------

  ghost predicate PcFits(s: State, t: Thread) {
    match Pc(s, t)
    case FastReady => s.client.Some?
    case FastReturn => s.client.Some? && s.ready
    case Construct => s.client.None?
    case TestReady => s.client.Some?
    case BucketExists => s.client.Some? && !s.ready
    case MakeBucket => s.client.Some? && !s.ready
    case SetReady => s.client.Some? && !s.ready
    case Result => s.client.Some? && s.ready
    case Returned(c) => c.Some? && c == s.client && s.ready
    case _ => true
  }

  ghost predicate Inv(s: State) {
    && s.stored == (if s.client.Some? then [s.client.value] else [])
    && (s.ready ==> s.client.Some?)
    && (forall t: Thread :: Pc(s, t).Holding() <==> s.owner == Some(t))
    && (forall t: Thread :: PcFits(s, t))
  }

  lemma StepKeepsShared(s: State, t: Thread, a: Answer)
    requires Inv(s)
    ensures var s' := Step(s, t, a);
      && s'.stored == (if s'.client.Some? then [s'.client.value] else [])
      && (s'.ready ==> s'.client.Some?)
      && PcFits(s', t) && (Pc(s', t).Holding() <==> s'.owner == Some(t))
  {
    assert PcFits(s, t);
    assert Pc(s, t).Holding() <==> s.owner == Some(t);
  }

  lemma StepKeepsOthers(s: State, t: Thread, a: Answer, u: Thread)
    requires Inv(s) && u != t
    ensures PcFits(Step(s, t, a), u) && (Pc(s, u).Holding() <==> Step(s, t, a).owner == Some(u))
  {
    assert PcFits(s, t) && PcFits(s, u);
    assert Pc(s, t).Holding() <==> s.owner == Some(t);
    assert Pc(s, u).Holding() <==> s.owner == Some(u);
    assert Pc(Step(s, t, a), u) == Pc(s, u);
  }

  lemma StepKeepsInv(s: State, t: Thread, a: Answer)
    requires Inv(s)
    ensures Inv(Step(s, t, a))
  {
    var s' := Step(s, t, a);
    StepKeepsShared(s, t, a);
    forall u: Thread ensures PcFits(s', u) && (Pc(s', u).Holding() <==> s'.owner == Some(u)) {
      if u != t {
        StepKeepsOthers(s, t, a, u);
        OthersStay(s, t, a, u);
      }
    }
  }

  lemma OthersStay(s: State, t: Thread, a: Answer, u: Thread)
    requires u != t
    ensures Pc(Step(s, t, a), u) == Pc(s, u)
  {
  }

  lemma {:induction false} RunKeepsInv(s: State, schedule: Schedule)
    requires Inv(s)
    ensures Inv(Run(s, schedule))
  {
    if schedule != [] {
      RunKeepsInv(s, schedule[..|schedule| - 1]);
      var last := schedule[|schedule| - 1];
      StepKeepsInv(Run(s, schedule[..|schedule| - 1]), last.0, last.1);
    }
  }

  /** Once stored, the client is never replaced; once ready, always so. */
  lemma {:induction false} RunKeepsClient(s: State, schedule: Schedule)
    requires Inv(s)
    ensures s.client.Some? ==> Run(s, schedule).client == s.client
    ensures s.ready ==> Run(s, schedule).ready
  {
    if schedule != [] {
      var before, last := Run(s, schedule[..|schedule| - 1]), schedule[|schedule| - 1];
      RunKeepsClient(s, schedule[..|schedule| - 1]);
      RunKeepsInv(s, schedule[..|schedule| - 1]);
      assert PcFits(before, last.0);
    }
  }

  // ---- Safety over every interleaving --------------------------------------------------------

  lemma InitialInv()
    ensures Inv(INITIAL)
  {
  }

  /** Where the thread that moves next stands. */
  function StandsAt(schedule: Schedule, i: nat): PC
    requires i < |schedule|
  {
    Pc(Run(INITIAL, schedule[..i]), schedule[i].0)
  }

  /** By some step of the schedule the bucket was found, or made: the world answered Yes. */
  ghost predicate BucketConfirmed(schedule: Schedule) {
    exists i :: 0 <= i < |schedule| && schedule[i].1.Yes? && StandsAt(schedule, i) in {BucketExists, MakeBucket}
  }

  lemma StepReady(s: State, t: Thread, a: Answer)
    requires Step(s, t, a).ready && !s.ready
    ensures Pc(s, t) == SetReady
  {
  }

  lemma StepSetReady(s: State, t: Thread, a: Answer, u: Thread)
    requires Pc(Step(s, t, a), u) == SetReady && Pc(s, u) != SetReady
    ensures u == t && a.Yes? && Pc(s, t) in {BucketExists, MakeBucket}
  {
    if u != t {
      OthersStay(s, t, a, u);
    }
  }

  lemma StepClient(s: State, t: Thread, a: Answer)
    requires Step(s, t, a).client != s.client
    ensures a.Yes? && Step(s, t, a).client == Some(a.made) && Pc(s, t) == Construct
  {
  }

  lemma ConfirmedEarlier(schedule: Schedule, n: nat)
    requires n <= |schedule| && BucketConfirmed(schedule[..n])
    ensures BucketConfirmed(schedule)
  {
    var i :| 0 <= i < n && schedule[..n][i].1.Yes? && StandsAt(schedule[..n], i) in {BucketExists, MakeBucket};
    assert schedule[..n][..i] == schedule[..i];
  }

  /** Readiness is only ever set behind such an answer. */
  lemma {:induction false} ReadyMeansConfirmed(schedule: Schedule, u: Thread)
    requires Run(INITIAL, schedule).ready || Pc(Run(INITIAL, schedule), u) == SetReady
    ensures BucketConfirmed(schedule)
  {
    var n := |schedule| - 1;
    var before, t, a := Run(INITIAL, schedule[..n]), schedule[n].0, schedule[n].1;
    if before.ready || Pc(before, u) == SetReady {
      ReadyMeansConfirmed(schedule[..n], u);
      ConfirmedEarlier(schedule, n);
    } else if Step(before, t, a).ready {
      StepReady(before, t, a);
      ReadyMeansConfirmed(schedule[..n], t);
      ConfirmedEarlier(schedule, n);
    } else {
      StepSetReady(before, t, a, u);
      assert StandsAt(schedule, n) == Pc(before, t);
    }
  }

  lemma SafeState(s: State)
    requires Inv(s)
    ensures |s.stored| <= 1
    ensures forall t, u :: Pc(s, t).Holding() && Pc(s, u).Holding() ==> t == u
    ensures forall t: Thread :: Pc(s, t).Returned? ==>
              Pc(s, t).client.Some? && s.stored == [Pc(s, t).client.value] && s.ready
  {
    forall t: Thread | Pc(s, t).Returned?
      ensures Pc(s, t).client.Some? && s.stored == [Pc(s, t).client.value] && s.ready
    {
      assert PcFits(s, t);
    }
  }

  /**
   However the threads interleave and whichever calls fail: at most one client object is ever stored, at most
   one thread is inside the lock, and a call returns only the stored client, after the store has answered that
   the bucket exists or has made it.
   */
  lemma SafeInitialisation(schedule: Schedule)
    ensures var s := Run(INITIAL, schedule);
      && |s.stored| <= 1
      && (forall t, u :: Pc(s, t).Holding() && Pc(s, u).Holding() ==> t == u)
      && (forall t: Thread :: Pc(s, t).Returned? ==>
            Pc(s, t).client.Some? && s.stored == [Pc(s, t).client.value] && s.ready)
      && (s.ready || (exists t: Thread :: Pc(s, t).Returned?) ==>
            exists i :: 0 <= i < |schedule| && schedule[i].1.Yes?
              && (StandsAt(schedule, i) == BucketExists || StandsAt(schedule, i) == MakeBucket))
  {
    InitialInv();
    RunKeepsInv(INITIAL, schedule);
    SafeState(Run(INITIAL, schedule));
    if Run(INITIAL, schedule).ready {
      ReadyMeansConfirmed(schedule, 0);
    }
  }

  /** The step that brought a thread to where it stands. */
  lemma {:induction false} BroughtBy(schedule: Schedule, t: Thread) returns (i: nat)
    requires Pc(Run(INITIAL, schedule), t) != Start
    ensures i < |schedule| && schedule[i].0 == t
    ensures Pc(Run(INITIAL, schedule), t) == Pc(Step(Run(INITIAL, schedule[..i]), t, schedule[i].1), t)
  {
    var n := |schedule| - 1;
    if schedule[n].0 == t {
      i := n;
    } else {
      OthersStay(Run(INITIAL, schedule[..n]), schedule[n].0, schedule[n].1, t);
      i := BroughtBy(schedule[..n], t);
      assert schedule[..n][..i] == schedule[..i];
    }
  }

  lemma StepMakeBucket(s: State, t: Thread, a: Answer)
    requires Pc(Step(s, t, a), t) == MakeBucket
    ensures Pc(s, t) == BucketExists && a == No
  {
  }

  /** The bucket is made only after the store has answered the same thread that there is none. */
  lemma MadeOnlyIfMissing(schedule: Schedule, t: Thread) returns (i: nat)
    requires Pc(Run(INITIAL, schedule), t) == MakeBucket
    ensures i < |schedule| && schedule[i] == (t, No) && StandsAt(schedule, i) == BucketExists
  {
    i := BroughtBy(schedule, t);
    StepMakeBucket(Run(INITIAL, schedule[..i]), t, schedule[i].1);
  }

  /** A thread that waits for the lock or holds it has been answered that the endpoint is configured. */
  lemma {:induction false} OnlyIfConfigured(schedule: Schedule, t: Thread) returns (i: nat)
    requires Pc(Run(INITIAL, schedule), t).Acquire? || Pc(Run(INITIAL, schedule), t).Holding()
    ensures i < |schedule| && schedule[i].0 == t && schedule[i].1.Yes? && StandsAt(schedule, i) == Configured
    decreases |schedule|
  {
    i := BroughtBy(schedule, t);
    if StandsAt(schedule, i) != Configured {
      var j := OnlyIfConfigured(schedule[..i], t);
      assert schedule[..i][..j] == schedule[..j];
      i := j;
    }
  }

  /** The stored client is the object that a construction inside the lock gave. */
  lemma {:induction false} ClientWasConstructed(schedule: Schedule) returns (i: nat)
    requires Run(INITIAL, schedule).client.Some?
    ensures i < |schedule| && StandsAt(schedule, i) == Construct
    ensures schedule[i].1 == Yes(Run(INITIAL, schedule).client.value)
  {
    var n := |schedule| - 1;
    var before := Run(INITIAL, schedule[..n]);
    if before.client == Run(INITIAL, schedule).client {
      i := ClientWasConstructed(schedule[..n]);
      assert schedule[..n][..i] == schedule[..i];
    } else {
      StepClient(before, schedule[n].0, schedule[n].1);
      i := n;
    }
  }

  /** Two calls that return, at any two moments of a run, return the same object. */
  lemma SameClientForever(schedule: Schedule, later: Schedule, t: Thread, u: Thread)
    requires Pc(Run(INITIAL, schedule), t).Returned? && Pc(Run(INITIAL, schedule + later), u).Returned?
    ensures Pc(Run(INITIAL, schedule), t).client == Pc(Run(INITIAL, schedule + later), u).client
  {
    InitialInv();
    RunKeepsInv(INITIAL, schedule);
    RunKeepsInv(INITIAL, schedule + later);
    RunConcat(INITIAL, schedule, later);
    RunKeepsClient(Run(INITIAL, schedule), later);
    assert PcFits(Run(INITIAL, schedule), t) && PcFits(Run(INITIAL, schedule + later), u);
  }

  lemma {:induction false} RunConcat(s: State, a: Schedule, b: Schedule)
    ensures Run(s, a + b) == Run(Run(s, a), b)
  {
    if b == [] {
      assert a + b == a;
    } else {
      RunConcat(s, a, b[..|b| - 1]);
      assert (a + b)[..|a + b| - 1] == a + b[..|b| - 1];
    }
  }

  /** A failed construction or bucket call frees the lock and leaves both globals as they were, not ready. */
  lemma FailureIsRetryable(s: State, t: Thread, a: Answer)
    requires Inv(s) && Pc(s, t).Holding() && Pc(Step(s, t, a), t) == Raised
    ensures var s' := Step(s, t, a); s'.owner == None && !s'.ready && s'.client == s.client && s'.stored == s.stored
  {
    assert PcFits(s, t);
  }

  // ---- Progress ------------------------------------------------------------------------------

  /** Steps a thread still needs before it is out of the lock, whatever is answered. */
  function StepsInside(pc: PC): nat {
    match pc
    case TestClient => 7
    case Construct => 6
    case TestReady => 5
    case BucketExists => 4
    case MakeBucket => 3
    case SetReady => 2
    case Result => 1
    case _ => 0
  }

  function Turns(schedule: Schedule, t: Thread): nat {
    if schedule == [] then 0
    else Turns(schedule[..|schedule| - 1], t) + if schedule[|schedule| - 1].0 == t then 1 else 0
  }

  /** Each step of the holder brings it closer to the end of the block; no other step moves it. */
  lemma HolderAdvances(s: State, t: Thread, u: Thread, a: Answer)
    requires Inv(s) && s.owner == Some(t)
    ensures var s' := Step(s, u, a);
      if u != t then s'.owner == Some(t) && Pc(s', t) == Pc(s, t)
      else s'.owner == None || (s'.owner == Some(t) && StepsInside(Pc(s', t)) < StepsInside(Pc(s, t)))
  {
    assert Pc(s, t).Holding() && PcFits(s, t);
    assert Pc(s, u).Holding() <==> s.owner == Some(u);
  }

  /** Until it is freed the lock stays with its holder, who has used up that many of its steps. */
  lemma {:induction false} HeldOrReleased(s: State, t: Thread, schedule: Schedule) returns (n: nat)
    requires Inv(s) && s.owner == Some(t)
    ensures n <= |schedule| && Turns(schedule[..n], t) <= StepsInside(Pc(s, t))
    ensures Run(s, schedule[..n]).owner == None ||
            (n == |schedule| && Run(s, schedule).owner == Some(t)
             && Turns(schedule, t) + StepsInside(Pc(Run(s, schedule), t)) <= StepsInside(Pc(s, t)))
  {
    assert schedule[..|schedule|] == schedule;
    if schedule == [] {
      n := 0;
    } else {
      var before, last := schedule[..|schedule| - 1], schedule[|schedule| - 1];
      n := HeldOrReleased(s, t, before);
      assert before[..n] == schedule[..n];
      if Run(s, before[..n]).owner != None {
        RunKeepsInv(s, before);
        HolderAdvances(Run(s, before), t, last.0, last.1);
        assert Pc(Run(s, before), t).Holding();
        n := |schedule|;
      }
    }
  }

  /**
   In any schedule that gives the holder of the lock as many steps as it still needs (seven at most) the lock
   is freed by one of them, whatever the other threads do and whichever calls fail.
   */
  lemma LockIsReleased(s: State, t: Thread, schedule: Schedule) returns (n: nat)
    requires Inv(s) && s.owner == Some(t) && Turns(schedule, t) >= StepsInside(Pc(s, t))
    ensures n <= |schedule| && Turns(schedule[..n], t) <= StepsInside(Pc(s, t)) <= 7
    ensures Run(s, schedule[..n]).owner == None
  {
    n := HeldOrReleased(s, t, schedule);
    RunKeepsInv(s, schedule);
    assert Run(s, schedule).owner == Some(t) ==> Pc(Run(s, schedule), t).Holding();
  }

  /** `t` runs alone, hearing the given answers. */
  function Alone(t: Thread, answers: seq<Answer>): Schedule {
    seq(|answers|, i requires 0 <= i < |answers| => (t, answers[i]))
  }

  lemma {:induction false} AllTurnsAreIts(t: Thread, answers: seq<Answer>)
    ensures Turns(Alone(t, answers), t) == |answers|
  {
    if answers != [] {
      AllTurnsAreIts(t, answers[..|answers| - 1]);
      assert Alone(t, answers)[..|answers| - 1] == Alone(t, answers[..|answers| - 1]);
    }
  }

  function StepsToReturn(pc: PC): nat {
    match pc
    case Raised => 12
    case Start => 11
    case FastReady => 10
    case Configured => 9
    case Acquire => 8
    case FastReturn => 1
    case Returned(_) => 0
    case _ => StepsInside(pc)
  }

  lemma HealthyStep(s: State, t: Thread, made: Client)
    requires Inv(s) && (s.owner == None || s.owner == Some(t)) && !Pc(s, t).Returned?
    ensures var s' := Step(s, t, Yes(made));
      (s'.owner == None || s'.owner == Some(t)) && StepsToReturn(Pc(s', t)) < StepsToReturn(Pc(s, t)) <= 12
  {
    assert PcFits(s, t);
    assert Pc(s, t).Holding() <==> s.owner == Some(t);
  }

  function Healthy(t: Thread, made: Client, n: nat): Schedule {
    Alone(t, seq(n, i => Yes(made)))
  }

  lemma HealthyMore(s: State, t: Thread, made: Client, m: nat)
    ensures Run(s, Healthy(t, made, m + 1)) == Run(Step(s, t, Yes(made)), Healthy(t, made, m))
  {
    var first := [(t, Yes(made))];
    assert first[..0] == [];
    assert Healthy(t, made, m + 1) == first + Healthy(t, made, m);
    RunConcat(s, first, Healthy(t, made, m));
  }

  /** With the lock free (or held by the caller) and a healthy store, a call that runs alone returns the client. */
  lemma {:induction false} HealthyCallReturns(s: State, t: Thread, made: Client) returns (n: nat)
    requires Inv(s) && (s.owner == None || s.owner == Some(t))
    ensures n <= StepsToReturn(Pc(s, t)) <= 12 && Pc(Run(s, Healthy(t, made, n)), t).Returned?
    decreases StepsToReturn(Pc(s, t))
  {
    if Pc(s, t).Returned? {
      n := 0;
    } else {
      HealthyStep(s, t, made);
      StepKeepsInv(s, t, Yes(made));
      var m := HealthyCallReturns(Step(s, t, Yes(made)), t, made);
      HealthyMore(s, t, made, m);
      n := m + 1;
    }
  }
}
