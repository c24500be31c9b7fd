/**
 Model of should_crawl, get_next_crawl_time and check_and_crawl_sources in backend/app/scheduler.py.
 Times are microseconds on the naive UTC clock the scheduler compares with.
 */
module CrawlSchedule {
  import opened Text

  type Time = int

  const SECOND := 1_000_000
  const HOUR := 3600 * SECOND
  const DAY := 24 * HOUR

  datatype Cadence = ONCE | DAILY | WEEKLY | MONTHLY

  datatype Source = Source(id: nat, active: bool, ready: bool, cadence: Cadence, last: Option<Time>)

  function Period(c: Cadence): Time
    requires c != ONCE
  {
    match c case DAILY => DAY case WEEKLY => 7 * DAY case MONTHLY => 30 * DAY
  }

  predicate ShouldCrawl(s: Source, now: Time) {
    if !s.active || !s.ready then false
    else if s.cadence == ONCE then s.last.None?
    else if s.last.None? then true
    else now - s.last.value >= Period(s.cadence)
  }

  // ---- The announced time ----------------------------------------------------------------------

  datatype Announcement = Never | Immediately | At(second: int)

  /** The text shows whole seconds: the fraction of the due time is dropped. */
  function NextCrawl(s: Source): Announcement {
    if s.cadence == ONCE then Never
    else if s.last.None? then Immediately
    else At((s.last.value + Period(s.cadence)) / SECOND)
  }

  predicate Reached(a: Announcement, now: Time) {
    match a case Never => false case Immediately => true case At(second) => now >= second * SECOND
  }

  /**
   An active, ready source is due at exactly the instants at which the announced time is reached, if and only
   if its last crawl stopped on a whole second, or, for a ONCE source, if it was crawled before.
   */
  lemma AnnouncementIsRight(s: Source)
    requires s.active && s.ready
    ensures (forall now :: ShouldCrawl(s, now) <==> Reached(NextCrawl(s), now))
       <==> if s.cadence == ONCE then s.last.Some? else s.last.Some? ==> s.last.value % SECOND == 0
  {
    if s.cadence != ONCE && s.last.Some? {
      var second := (s.last.value + Period(s.cadence)) / SECOND * SECOND;
      assert Reached(NextCrawl(s), second);
      assert ShouldCrawl(s, second) <==> s.last.value % SECOND == 0;
    } else if s.cadence == ONCE && s.last.None? {
      assert ShouldCrawl(s, 0) && !Reached(NextCrawl(s), 0);
    }
  }

  /** The crawl never runs ahead of the announced time, and lags behind it by less than a second. */
  lemma AnnouncementLags(s: Source, now: Time)
    requires s.cadence != ONCE && s.active && s.ready
    ensures ShouldCrawl(s, now) ==> Reached(NextCrawl(s), now)
    ensures Reached(NextCrawl(s), now) ==> ShouldCrawl(s, now + SECOND - 1)
  {
  }

  /** A ONCE source that was never crawled is due although it is announced as never. */
  lemma OnceIsMisannounced()
    ensures var s := Source(1, true, true, ONCE, None); ShouldCrawl(s, 0) && NextCrawl(s) == Never
  {
  }

  /** A day, a week and 30 days after the last crawl; never for a source that is not active or not ready. */
  lemma DueAfterDays(s: Source, now: Time)
    ensures s.active && s.ready && s.last.Some? ==>
      && (s.cadence == ONCE ==> !ShouldCrawl(s, now))
      && (s.cadence == DAILY ==> (ShouldCrawl(s, now) <==> now - s.last.value >= 86_400_000_000))
      && (s.cadence == WEEKLY ==> (ShouldCrawl(s, now) <==> now - s.last.value >= 7 * 86_400_000_000))
      && (s.cadence == MONTHLY ==> (ShouldCrawl(s, now) <==> now - s.last.value >= 30 * 86_400_000_000))
    ensures s.active && s.ready && s.last.None? ==> ShouldCrawl(s, now)
    ensures !(s.active && s.ready) ==> !ShouldCrawl(s, now)
  {
  }

  // ---- One tick --------------------------------------------------------------------------------

  /** The sources to crawl, in the order of the query. */
  function Due(sources: seq<Source>, now: Time): seq<nat> {
    if sources == [] then []
    else
      var last := sources[|sources| - 1];
      Due(sources[..|sources| - 1], now) + if ShouldCrawl(last, now) then [last.id] else []
  }

  method CheckAndCrawl(sources: seq<Source>, now: Time) returns (started: seq<nat>)
    ensures started == Due(sources, now)
    ensures forall id :: id in started <==> exists s :: s in sources && s.id == id && ShouldCrawl(s, now)
  {
    started := [];
    for i := 0 to |sources|
      invariant started == Due(sources[..i], now)
      invariant forall id :: id in started <==> exists s :: s in sources[..i] && s.id == id && ShouldCrawl(s, now)
    {
      assert sources[..i + 1] == sources[..i] + [sources[i]];
      assert sources[..i + 1][..i] == sources[..i];
      if sources[i].active && sources[i].ready && ShouldCrawl(sources[i], now) {
        started := started + [sources[i].id];
      }
    }
    assert sources[..|sources|] == sources;
  }

  // ---- Runs of ticks ---------------------------------------------------------------------------

  /**
   A tick, and the times at which the crawl it may start writes last_crawl_at: the first crawl of a source
   when it starts, any crawl when it ends, and nothing if it fails before. A crawl may outlive later ticks.
   What is written is the time of the write, so the latest one counts.
   */
  datatype Tick = Tick(at: Time, stamps: seq<Time>)

  function Later(a: Option<Time>, b: Option<Time>): Option<Time> {
    if a.None? then b else if b.None? then a else if a.value < b.value then b else a
  }

  /** The latest of the stamps that has fallen by `now`. */
  function LatestOf(stamps: seq<Time>, now: Time): Option<Time> {
    if stamps == [] then None
    else Later(if stamps[0] <= now then Some(stamps[0]) else None, LatestOf(stamps[1..], now))
  }

  /** The latest stamp fallen by `now` of the crawls started at the first `n` ticks. */
  function Latest(s: Source, ticks: seq<Tick>, n: nat, now: Time): Option<Time>
    requires n <= |ticks|
    decreases n, 0
  {
    if n == 0 then None
    else Later(Latest(s, ticks, n - 1, now),
               if Triggers(s, ticks, n - 1) then LatestOf(ticks[n - 1].stamps, now) else None)
  }

  /** `last_crawl_at` at tick `k`. */
  function LastBefore(s: Source, ticks: seq<Tick>, k: nat): Option<Time>
    requires k < |ticks|
    decreases k, 1
  {
    var latest := Latest(s, ticks, k, ticks[k].at);
    if latest.Some? then latest else s.last
  }

  predicate Triggers(s: Source, ticks: seq<Tick>, k: nat)
    requires k < |ticks|
    decreases k, 2
  {
    ShouldCrawl(s.(last := LastBefore(s, ticks, k)), ticks[k].at)
  }

  /** Ticks at most an hour apart, and no stamp before the tick that starts the crawl. */
  ghost predicate Hourly(ticks: seq<Tick>) {
    && (forall k :: 0 < k < |ticks| ==> ticks[k - 1].at < ticks[k].at <= ticks[k - 1].at + HOUR)
    && (forall k, t :: 0 <= k < |ticks| && t in ticks[k].stamps ==> ticks[k].at <= t)
  }

  /** A crawl started at one of the first `n` ticks writes the stamp `t` by `now`. */
  ghost predicate Stamped(s: Source, ticks: seq<Tick>, n: nat, now: Time, t: Time)
    requires n <= |ticks|
  {
    t <= now && exists i :: 0 <= i < n && Triggers(s, ticks, i) && t in ticks[i].stamps
  }

  lemma {:induction false} LatestOfMeaning(stamps: seq<Time>, now: Time)
    ensures var m := LatestOf(stamps, now);
      if m.Some? then m.value in stamps && m.value <= now && forall t :: t in stamps && t <= now ==> t <= m.value
      else forall t :: t in stamps ==> t > now
  {
    if stamps != [] {
      LatestOfMeaning(stamps[1..], now);
      assert forall t :: t in stamps <==> t == stamps[0] || t in stamps[1..];
    }
  }

  lemma StampedNext(s: Source, ticks: seq<Tick>, n: nat, now: Time, t: Time)
    requires n < |ticks|
    ensures Stamped(s, ticks, n + 1, now, t)
       <==> Stamped(s, ticks, n, now, t) || (Triggers(s, ticks, n) && t in ticks[n].stamps && t <= now)
  {
  }

  lemma {:induction false} LatestMeaning(s: Source, ticks: seq<Tick>, n: nat, now: Time)
    requires n <= |ticks|
    ensures var m := Latest(s, ticks, n, now);
      if m.Some? then Stamped(s, ticks, n, now, m.value) && forall t :: Stamped(s, ticks, n, now, t) ==> t <= m.value
      else forall t :: !Stamped(s, ticks, n, now, t)
  {
    if n > 0 {
      LatestMeaning(s, ticks, n - 1, now);
      LatestOfMeaning(ticks[n - 1].stamps, now);
      var before := n - 1;
      forall t ensures Stamped(s, ticks, n, now, t)
          <==> Stamped(s, ticks, before, now, t) || (Triggers(s, ticks, before) && t in ticks[before].stamps && t <= now)
      {
        StampedNext(s, ticks, before, now, t);
      }
    }
  }

  lemma {:induction false} TicksAscend(ticks: seq<Tick>, i: nat, j: nat)
    requires Hourly(ticks) && i < j < |ticks|
    ensures ticks[i].at < ticks[j].at
  {
    if i < j - 1 {
      TicksAscend(ticks, i, j - 1);
    }
  }

  /**
   A tick triggers exactly when every stamp fallen so far is at least the period ago or, while none has
   fallen, when the source was due from the start.
   */
  lemma TriggersExactly(s: Source, ticks: seq<Tick>, k: nat)
    requires k < |ticks| && s.active && s.ready && s.cadence != ONCE
    ensures var now := ticks[k].at;
      Triggers(s, ticks, k)
      <==> if exists t :: Stamped(s, ticks, k, now, t)
           then forall t :: Stamped(s, ticks, k, now, t) ==> now - t >= Period(s.cadence)
           else ShouldCrawl(s, now)
  {
    LatestMeaning(s, ticks, k, ticks[k].at);
  }

  /** From a tick that does not trigger to the next one the latest stamp can only grow, and what is new is from in between. */
  lemma LatestGrows(s: Source, ticks: seq<Tick>, before: nat, was: Time, now: Time, earlier: Option<Time>, last: Option<Time>)
    requires before + 1 < |ticks| && was < now && !Triggers(s, ticks, before)
    requires earlier == Latest(s, ticks, before, was) && last == Latest(s, ticks, before + 1, now)
    ensures match earlier
      case Some(e) => last.Some? && e <= last.value
      case None => last.Some? ==> was < last.value
  {
    LatestMeaning(s, ticks, before, was);
    LatestMeaning(s, ticks, before + 1, now);
    forall t ensures Stamped(s, ticks, before, was, t) <==> Stamped(s, ticks, before + 1, now, t) && t <= was {
      StampedNext(s, ticks, before, now, t);
    }
    match earlier
    case Some(e) => assert Stamped(s, ticks, before + 1, now, e);
    case None =>
      if last.Some? {
        assert Stamped(s, ticks, before + 1, now, last.value) && !Stamped(s, ticks, before, was, last.value);
      }
  }

  /**
   A tick that does not repeat the trigger of the tick before comes no earlier than the period after the last
   stamp, and less than an hour late, however long crawls run.
   */
  lemma CadenceRespected(s: Source, ticks: seq<Tick>, k: nat)
    requires Hourly(ticks) && s.active && s.ready && s.cadence != ONCE
    requires 0 < k < |ticks| && !Triggers(s, ticks, k - 1) && Triggers(s, ticks, k)
    ensures LastBefore(s, ticks, k).Some?
    ensures Period(s.cadence) <= ticks[k].at - LastBefore(s, ticks, k).value < Period(s.cadence) + HOUR
  {
    var before, was, now := k - 1, ticks[k - 1].at, ticks[k].at;
    LatestGrows(s, ticks, before, was, now, Latest(s, ticks, before, was), Latest(s, ticks, k, now));
  }

  /** A trigger is repeated at the next tick exactly when no crawl has stamped in between. */
  lemma RepeatsUntilStamped(s: Source, ticks: seq<Tick>, k: nat)
    requires Hourly(ticks) && s.active && s.ready && 0 < k < |ticks| && Triggers(s, ticks, k - 1)
    ensures Triggers(s, ticks, k)
       <==> forall t :: Stamped(s, ticks, k, ticks[k].at, t) ==> t < ticks[k - 1].at
  {
    var before, was, now := k - 1, ticks[k - 1].at, ticks[k].at;
    LatestMeaning(s, ticks, k, now);
    LatestMeaning(s, ticks, before, was);
    forall t ensures Stamped(s, ticks, before, was, t) ==> Stamped(s, ticks, k, now, t)
      ensures Stamped(s, ticks, k, now, t) && t < was ==> Stamped(s, ticks, before, was, t)
    {
      StampedNext(s, ticks, before, now, t);
    }
  }

  // ---- No trigger is missed ----------------------------------------------------------------------

  /** No tick strictly between `i` and `j` triggers. */
  ghost predicate Quiet(s: Source, ticks: seq<Tick>, i: nat, j: nat)
    requires j <= |ticks|
  {
    forall k :: i < k < j ==> !Triggers(s, ticks, k)
  }

  /** Between two triggers only the crawls started up to the first one stamp. */
  lemma StampedWhileQuiet(s: Source, ticks: seq<Tick>, i: nat, j: nat, t: Time)
    requires i < j < |ticks| && Quiet(s, ticks, i, j)
    ensures Stamped(s, ticks, j, ticks[j].at, t) <==> Stamped(s, ticks, i + 1, ticks[j].at, t)
  {
  }

  /**
   After a trigger there is another one by the first tick that is the period past every stamp of the crawls
   started so far.
   */
  lemma DueIsNotMissed(s: Source, ticks: seq<Tick>, i: nat, k: nat)
    requires Hourly(ticks) && s.active && s.ready && s.cadence != ONCE && i < k < |ticks| && Triggers(s, ticks, i)
    requires forall j, t :: 0 <= j <= i && t in ticks[j].stamps ==> ticks[k].at - t >= Period(s.cadence)
    ensures exists j :: i < j <= k && Triggers(s, ticks, j)
  {
    if Quiet(s, ticks, i, k) {
      TicksAscend(ticks, i, k);
      TriggersExactly(s, ticks, i);
      TriggersExactly(s, ticks, k);
      forall t { StampedWhileQuiet(s, ticks, i, k, t); }
      forall t ensures Stamped(s, ticks, i, ticks[i].at, t) ==> Stamped(s, ticks, k, ticks[k].at, t) {}
      assert Triggers(s, ticks, k);
    }
  }

  /** Every crawl stamps, and only before the next tick. */
  ghost predicate Prompt(s: Source, ticks: seq<Tick>) {
    forall k :: 0 <= k < |ticks| - 1 && Triggers(s, ticks, k) ==>
      ticks[k].stamps != [] && forall t :: t in ticks[k].stamps ==> t <= ticks[k + 1].at
  }

  /** If crawls are prompt, each trigger comes the period after the last stamp of the one before, and less than an hour late. */
  lemma PromptCadence(s: Source, ticks: seq<Tick>, i: nat, j: nat)
    requires Hourly(ticks) && Prompt(s, ticks) && s.active && s.ready && s.cadence != ONCE
    requires i < j < |ticks| && Triggers(s, ticks, i) && Quiet(s, ticks, i, j) && Triggers(s, ticks, j)
    ensures exists t :: t in ticks[i].stamps && (forall u :: u in ticks[i].stamps ==> u <= t)
                        && Period(s.cadence) <= ticks[j].at - t < Period(s.cadence) + HOUR
  {
    PromptStops(s, ticks, i);
    CadenceRespected(s, ticks, j);
    PromptLast(s, ticks, i, j);
  }

  /** A prompt trigger is not repeated at the next tick. */
  lemma PromptStops(s: Source, ticks: seq<Tick>, i: nat)
    requires Hourly(ticks) && Prompt(s, ticks) && s.active && s.ready && i + 1 < |ticks| && Triggers(s, ticks, i)
    ensures !Triggers(s, ticks, i + 1)
  {
    RepeatsUntilStamped(s, ticks, i + 1);
    var first := ticks[i].stamps[0];
    assert first in ticks[i].stamps;
    assert Stamped(s, ticks, i + 1, ticks[i + 1].at, first);
  }

  lemma PromptLast(s: Source, ticks: seq<Tick>, i: nat, j: nat)
    requires Hourly(ticks) && Prompt(s, ticks) && i < j < |ticks| && Triggers(s, ticks, i) && Quiet(s, ticks, i, j)
    ensures LastBefore(s, ticks, j).Some?
    ensures var last := LastBefore(s, ticks, j).value;
      last in ticks[i].stamps && forall t :: t in ticks[i].stamps ==> t <= last
  {
    var now, first := ticks[j].at, ticks[i].stamps[0];
    LatestMeaning(s, ticks, j, now);
    if i + 1 < j {
      TicksAscend(ticks, i + 1, j);
    }
    assert first in ticks[i].stamps && Stamped(s, ticks, j, now, first);
    forall t | t in ticks[i].stamps ensures Stamped(s, ticks, j, now, t) {}
    PromptEarlier(s, ticks, i, LastBefore(s, ticks, j).value, now, j);
  }

  /** While all crawls are prompt, a stamp no older than tick `i` is one of the crawl started there. */
  lemma PromptEarlier(s: Source, ticks: seq<Tick>, i: nat, t: Time, now: Time, j: nat)
    requires Hourly(ticks) && Prompt(s, ticks) && i < j < |ticks| && Quiet(s, ticks, i, j) && Stamped(s, ticks, j, now, t)
    ensures t in ticks[i].stamps || t <= ticks[i].at
  {
    var k: nat :| k < j && Triggers(s, ticks, k) && t in ticks[k].stamps;
    if k < i {
      if k + 1 < i {
        TicksAscend(ticks, k + 1, i);
      }
    }
  }

  // ---- ONCE ----------------------------------------------------------------------------------------

  lemma OnceUnstamped(s: Source, ticks: seq<Tick>, k: nat)
    requires k < |ticks| && s.active && s.ready && s.cadence == ONCE
    ensures var now := ticks[k].at;
      Triggers(s, ticks, k) <==> s.last.None? && forall t :: !Stamped(s, ticks, k, now, t)
  {
    LatestMeaning(s, ticks, k, ticks[k].at);
  }

  /** A ONCE source triggers at a tick exactly when it was never crawled and no crawl started before has stamped yet. */
  lemma OnceTriggers(s: Source, ticks: seq<Tick>, k: nat)
    requires Hourly(ticks) && k < |ticks| && s.active && s.ready && s.cadence == ONCE
    ensures Triggers(s, ticks, k)
       <==> s.last.None? && forall i, t :: 0 <= i < k && t in ticks[i].stamps ==> t > ticks[k].at
  {
    var now := ticks[k].at;
    OnceUnstamped(s, ticks, k);
    if Triggers(s, ticks, k) {
      forall i: nat, t | i < k && t in ticks[i].stamps ensures t > now {
        TicksAscend(ticks, i, k);
        OnceUnstamped(s, ticks, i);
        var was := ticks[i].at;
        forall u ensures Stamped(s, ticks, i, was, u) ==> Stamped(s, ticks, k, now, u) {}
        assert t <= now ==> Stamped(s, ticks, k, now, t);
      }
    }
  }

  /** So it triggers at most once if every crawl has stamped by the next tick. */
  lemma OnceAtMostOnce(s: Source, ticks: seq<Tick>, i: nat, j: nat)
    requires Hourly(ticks) && i < j < |ticks| && s.active && s.ready && s.cadence == ONCE
    requires Triggers(s, ticks, i) ==> exists t :: t in ticks[i].stamps && t <= ticks[i + 1].at
    ensures !(Triggers(s, ticks, i) && Triggers(s, ticks, j))
  {
    OnceTriggers(s, ticks, j);
    if i + 1 < j {
      TicksAscend(ticks, i + 1, j);
    }
  }
}
