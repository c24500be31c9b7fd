/**
 Model of backend/alembic/versions/j0k1l2m3n4o5_add_project_model_providers.py (seeding saved keys) and
 k1l2m3n4o5p6_add_provider_surface_tuning.py (tuning per surface).
 */
module ProviderSeeding {
  import opened Text
  import opened Priority

  type Project = nat
  type Key = (Project, string)    // project, provider family

  // ---- Provider families ---------------------------------------------------------------------

  function Normal(provider: Option<string>): string {
    match provider case Some(p) => Lower(Strip(p)) case None => ""
  }

  function Family(provider: Option<string>): Option<string> {
    var key := Normal(provider);
    if Contains(key, "google") || Contains(key, "gemini") then Some("gemini")
    else if Contains(key, "mistral") then Some("mistral")
    else if Contains(key, "anthropic") || Contains(key, "claude") then Some("anthropic")
    else if Contains(key, "openai") then Some("openai")
    else None
  }

  function SurfaceFamily(provider: Option<string>): Option<string> {
    var key := Normal(provider);
    if Contains(key, "google") || Contains(key, "gemini") then Some("gemini")
    else if Contains(key, "mistral") then Some("mistral")
    else if Contains(key, "anthropic") || Contains(key, "claude") then Some("anthropic")
    else if Contains(key, "openai") then Some("openai")
    else if Contains(key, "ollama") || Contains(key, "custom") then Some("ollama")
    else None
  }

  // ---- Tables ----------------------------------------------------------------------------------

  /** Generation parameters a provider row shares between surfaces. */
  datatype Shared = Shared(temperature: Option<string>, topP: Option<string>, bestOf: Option<int>,
                           frequency: Option<string>, presence: Option<string>)

  /** A row of chatbot_settings or search_settings. */
  datatype Widget = Widget(project: Project, user: nat, provider: Option<string>, model: Option<string>,
                           embedding: Option<string>, apiKey: Option<string>, shared: Shared,
                           threshold: Option<real>, maxTokens: Option<int>, updated: Option<int>)

  datatype Profile = Profile(project: Option<Project>, provider: string, model: string, embedding: Option<string>,
                             apiKey: Option<string>, updated: Option<int>)

  type Owners = map<Project, nat>

  /** `updated_at DESC`, where PostgreSQL puts NULL first. */
  predicate Recent(a: Option<int>, b: Option<int>) {
    a.None? || (b.Some? && a.value >= b.value)
  }

  /** 0 for the project owner's row, 1 for anybody else's. */
  function Prio(owners: Owners, w: Widget): nat {
    if w.project in owners && owners[w.project] == w.user then 0 else 1
  }

  function OwnerFirst(owners: Owners): (Widget, Widget) -> bool {
    (a: Widget, b: Widget) => Prio(owners, a) < Prio(owners, b) || (Prio(owners, a) == Prio(owners, b) && Recent(a.updated, b.updated))
  }

  predicate NewestWidget(a: Widget, b: Widget) { Recent(a.updated, b.updated) }

  predicate NewestProfile(a: Profile, b: Profile) { Recent(a.updated, b.updated) }

  function OrEmpty(value: Option<string>): string {
    match value case Some(t) => t case None => ""
  }

  // ---- Candidates ------------------------------------------------------------------------------

  /** Where a saved key comes from; `source` is 0 chatbot, 1 search, 2 profile. */
  datatype Candidate = Candidate(source: nat, prio: nat, updated: Option<int>, project: Project, provider: Option<string>,
                                 model: Option<string>, embedding: Option<string>, apiKey: string, shared: Shared)

  const NOTHING_SHARED := Shared(None, None, None, None, None)

  /** The priority order: source, then owner first among chatbot rows, then most recent. */
  predicate Before(a: Candidate, b: Candidate) {
    || a.source < b.source
    || (a.source == b.source && a.prio < b.prio)
    || (a.source == b.source && a.prio == b.prio && Recent(a.updated, b.updated))
  }

  function FromChatbot(owners: Owners, w: Widget): Candidate {
    Candidate(0, Prio(owners, w), w.updated, w.project, w.provider, w.model, w.embedding, OrEmpty(w.apiKey), w.shared)
  }

  function FromSearch(w: Widget): Candidate {
    Candidate(1, 0, w.updated, w.project, w.provider, w.model, w.embedding, OrEmpty(w.apiKey), w.shared)
  }

  function FromProfile(p: Profile): Candidate {
    Candidate(2, 0, p.updated, if p.project.Some? then p.project.value else 0, Some(p.provider), Some(p.model), p.embedding, OrEmpty(p.apiKey), NOTHING_SHARED)
  }

  /** JOIN projects, and a key that is neither NULL nor empty. */
  function SavedChatbot(owners: Owners): Widget -> bool {
    (w: Widget) => w.project in owners && OrEmpty(w.apiKey) != ""
  }

  predicate SavedSearch(w: Widget) { OrEmpty(w.apiKey) != "" }

  predicate SavedProfile(p: Profile) { p.project.Some? && OrEmpty(p.apiKey) != "" }

  datatype Tables = Tables(owners: Owners, chatbot: seq<Widget>, search: seq<Widget>, profiles: seq<Profile>)

  /** The saved keys of the three tables. */
  ghost predicate IsCandidate(t: Tables, c: Candidate) {
    || (exists w :: w in t.chatbot && SavedChatbot(t.owners)(w) && c == FromChatbot(t.owners, w))
    || (exists w :: w in t.search && SavedSearch(w) && c == FromSearch(w))
    || (exists p :: p in t.profiles && SavedProfile(p) && c == FromProfile(p))
  }

  /** The answers to the three queries, one after the other, whatever order ties come in. */
  method SeedCandidates(t: Tables, chatbot: seq<Widget>, search: seq<Widget>, profiles: seq<Profile>)
    returns (cs: seq<Candidate>)
    requires Answers(t.chatbot, SavedChatbot(t.owners), OwnerFirst(t.owners), chatbot)
    requires Answers(t.search, SavedSearch, NewestWidget, search)
    requires Answers(t.profiles, SavedProfile, NewestProfile, profiles)
    ensures OrderedBy(Before, cs)
    ensures forall c :: c in cs <==> IsCandidate(t, c)
  {
    var a, b, c := ChatbotCandidates(t.owners, chatbot), SearchCandidates(search), ProfileCandidates(profiles);
    cs := a + b + c;
    AnswerRows(t.chatbot, SavedChatbot(t.owners), OwnerFirst(t.owners), chatbot);
    AnswerRows(t.search, SavedSearch, NewestWidget, search);
    AnswerRows(t.profiles, SavedProfile, NewestProfile, profiles);
    forall x ensures x in cs <==> IsCandidate(t, x) {
      assert x in cs <==> x in a || x in b || x in c;
      assert forall w :: w in chatbot <==> w in t.chatbot && SavedChatbot(t.owners)(w);
    }
    assert forall i, j :: 0 <= i < j < |cs| ==> Before(cs[i], cs[j]);
  }

  function ChatbotCandidates(owners: Owners, rows: seq<Widget>): (r: seq<Candidate>)
    ensures |r| == |rows| && forall i :: 0 <= i < |rows| ==> r[i] == FromChatbot(owners, rows[i])
    ensures forall x :: x in r <==> exists w :: w in rows && x == FromChatbot(owners, w)
  {
    var r := seq(|rows|, i requires 0 <= i < |rows| => FromChatbot(owners, rows[i]));
    assert forall i :: 0 <= i < |rows| ==> rows[i] in rows && r[i] == FromChatbot(owners, rows[i]);
    r
  }

  function SearchCandidates(rows: seq<Widget>): (r: seq<Candidate>)
    ensures |r| == |rows| && forall i :: 0 <= i < |rows| ==> r[i] == FromSearch(rows[i])
    ensures forall x :: x in r <==> exists w :: w in rows && x == FromSearch(w)
  {
    var r := seq(|rows|, i requires 0 <= i < |rows| => FromSearch(rows[i]));
    assert forall i :: 0 <= i < |rows| ==> rows[i] in rows && r[i] == FromSearch(rows[i]);
    r
  }

  function ProfileCandidates(rows: seq<Profile>): (r: seq<Candidate>)
    ensures |r| == |rows| && forall i :: 0 <= i < |rows| ==> r[i] == FromProfile(rows[i])
    ensures forall x :: x in r <==> exists p :: p in rows && x == FromProfile(p)
  {
    var r := seq(|rows|, i requires 0 <= i < |rows| => FromProfile(rows[i]));
    assert forall i :: 0 <= i < |rows| ==> rows[i] in rows && r[i] == FromProfile(rows[i]);
    r
  }

  // ---- Seeding ---------------------------------------------------------------------------------

  /** A row of project_model_providers, with its tuning columns. */
  datatype Provider = Provider(project: Project, family: string, model: Option<string>, embedding: Option<string>,
                               apiKey: string, shared: Shared, tuning: Tuning)

  /** Chatbot and search values of temperature, similarity threshold and token limit. */
  datatype Tuning = Tuning(chat: Values, search: Values)
  datatype Values = Values(temperature: Option<string>, threshold: Option<real>, maxTokens: Option<int>)

  const NO_VALUES := Values(None, None, None)

  /** A hosted family is any family `Family` knows. */
  function KeyOf(c: Candidate): Option<Key> {
    match Family(c.provider) case Some(f) => Some((c.project, f)) case None => None
  }

  function NonEmpty(value: Option<string>): Option<string> {
    if OrEmpty(value) == "" then None else value
  }

  function SeededRow(c: Candidate, family: string): Provider {
    Provider(c.project, family, NonEmpty(c.model), if family == "anthropic" then None else NonEmpty(c.embedding),
             c.apiKey, c.shared, Tuning(NO_VALUES, NO_VALUES))
  }

  function RowKey(p: Provider): Key { (p.project, p.family) }

  ghost predicate OneRowPerKey(rows: seq<Provider>) {
    forall i, j :: 0 <= i < j < |rows| ==> RowKey(rows[i]) != RowKey(rows[j])
  }

  /** The rows are exactly those the first candidate of each key gives. */
  ghost predicate Seeded(cs: seq<Candidate>, rows: seq<Provider>) {
    && OneRowPerKey(rows)
    && forall r :: r in rows <==>
         First(KeyOf, cs, RowKey(r)).Some? && r == SeededRow(First(KeyOf, cs, RowKey(r)).value, r.family)
  }

  method Seed(cs: seq<Candidate>) returns (inserts: seq<Provider>)
    ensures Seeded(cs, inserts)
  {
    var seen: set<Key> := {};
    inserts := [];
    for i := 0 to |cs|
      invariant Seeded(cs[..i], inserts)
      invariant forall k :: k in seen <==> First(KeyOf, cs[..i], k).Some?
    {
      var c := cs[i];
      forall k { FirstMore(KeyOf, cs, i, k); }
      SeededMore(cs, i, inserts);
      var key := KeyOf(c);
      if key.Some? && key.value !in seen {
        seen := seen + {key.value};
        inserts := inserts + [SeededRow(c, key.value.1)];
      }
    }
    assert cs[..|cs|] == cs;
  }

  lemma SeededMore(cs: seq<Candidate>, i: nat, rows: seq<Provider>)
    requires i < |cs| && Seeded(cs[..i], rows)
    ensures var key := KeyOf(cs[i]);
      if key.Some? && First(KeyOf, cs[..i], key.value).None?
      then Seeded(cs[..i + 1], rows + [SeededRow(cs[i], key.value.1)])
      else Seeded(cs[..i + 1], rows)
  {
    var key := KeyOf(cs[i]);
    if key.Some? && First(KeyOf, cs[..i], key.value).None? {
      var row := SeededRow(cs[i], key.value.1);
      var rows' := rows + [row];
      forall r ensures r in rows' <==> First(KeyOf, cs[..i + 1], RowKey(r)).Some?
                                       && r == SeededRow(First(KeyOf, cs[..i + 1], RowKey(r)).value, r.family) {
        FirstMore(KeyOf, cs, i, RowKey(r));
        assert r in rows' <==> r in rows || r == row;
      }
      forall j | 0 <= j < |rows| ensures RowKey(rows[j]) != RowKey(row) {
        assert rows[j] in rows;
      }
    } else {
      forall r { FirstMore(KeyOf, cs, i, RowKey(r)); }
    }
  }

  // ---- Tuning ----------------------------------------------------------------------------------

  function SurfaceKey(w: Widget): Option<Key> {
    match SurfaceFamily(w.provider) case Some(f) => Some((w.project, f)) case None => None
  }

  function ValuesOf(w: Widget): Values {
    Values(w.shared.temperature, w.threshold, w.maxTokens)
  }

  type Latest = map<Key, Values>

  function InProject(owners: Owners): Widget -> bool {
    (w: Widget) => w.project in owners
  }

  ghost predicate IsLatest(out: Latest, rows: seq<Widget>) {
    && (forall k :: k in out <==> First(SurfaceKey, rows, k).Some?)
    && (forall k :: k in out ==> out[k] == ValuesOf(First(SurfaceKey, rows, k).value))
  }

  lemma LatestMore(out: Latest, rows: seq<Widget>, i: nat)
    requires i < |rows| && IsLatest(out, rows[..i])
    ensures var key := SurfaceKey(rows[i]);
      IsLatest(if key.Some? && key.value !in out then out[key.value := ValuesOf(rows[i])] else out, rows[..i + 1])
  {
    forall k { FirstMore(SurfaceKey, rows, i, k); }
  }

  method LatestWidgetValues(rows: seq<Widget>) returns (out: Latest)
    ensures IsLatest(out, rows)
  {
    out := map[];
    for i := 0 to |rows|
      invariant IsLatest(out, rows[..i])
    {
      LatestMore(out, rows, i);
      var key := SurfaceKey(rows[i]);
      if key.Some? && key.value !in out {
        out := out[key.value := ValuesOf(rows[i])];
      }
    }
    assert rows[..|rows|] == rows;
  }

  /** The shared temperature if it is set, else the widget's; threshold and limit from the widget. */
  function SurfaceValues(temperature: Option<string>, widget: Option<Values>): Values {
    var w := match widget case Some(v) => v case None => NO_VALUES;
    w.(temperature := if OrEmpty(temperature) != "" then temperature else w.temperature)
  }

  function Lookup(latest: Latest, k: Key): Option<Values> {
    if k in latest then Some(latest[k]) else None
  }

  function TunedRow(chat: Latest, search: Latest, p: Provider): Provider {
    var t := Tuning(SurfaceValues(p.shared.temperature, Lookup(chat, RowKey(p))),
                    SurfaceValues(p.shared.temperature, Lookup(search, RowKey(p))));
    if t == Tuning(NO_VALUES, NO_VALUES) then p else p.(tuning := t)
  }

  class ProviderTable {
    var rows: seq<Provider>

    constructor (rows: seq<Provider>)
      ensures this.rows == rows
    {
      this.rows := rows;
    }

    method Backfill(chatRows: seq<Widget>, searchRows: seq<Widget>)
      modifies this
      ensures |rows| == |old(rows)|
      ensures forall i :: 0 <= i < |rows| ==>
                var p := old(rows)[i];
                rows[i] == (var t := TuningFor(chatRows, searchRows, p); if t == Tuning(NO_VALUES, NO_VALUES) then p else p.(tuning := t))
    {
      var chat := LatestWidgetValues(chatRows);
      var search := LatestWidgetValues(searchRows);
      for i := 0 to |rows|
        invariant |rows| == |old(rows)|
        invariant forall j :: 0 <= j < i ==> rows[j] == TunedRow(chat, search, old(rows)[j])
        invariant forall j :: i <= j < |rows| ==> rows[j] == old(rows)[j]
      {
        rows := rows[i := TunedRow(chat, search, rows[i])];
      }
    }
  }

  /** The tuning of a row in terms of the query results. */
  ghost function TuningFor(chatRows: seq<Widget>, searchRows: seq<Widget>, p: Provider): Tuning {
    Tuning(SurfaceValues(p.shared.temperature, Newest(chatRows, RowKey(p))),
           SurfaceValues(p.shared.temperature, Newest(searchRows, RowKey(p))))
  }

  ghost function Newest(rows: seq<Widget>, k: Key): Option<Values> {
    match First(SurfaceKey, rows, k) case Some(w) => Some(ValuesOf(w)) case None => None
  }

  // ---- What the two migrations guarantee -------------------------------------------------------

  /** Some saved key belongs to the project and family `k`, and none that does comes before `c`. */
  ghost predicate IsBest(t: Tables, k: Key, c: Candidate) {
    && IsCandidate(t, c) && KeyOf(c) == Some(k)
    && forall d :: IsCandidate(t, d) && KeyOf(d) == Some(k) ==> d == c || Before(c, d)
  }

  /** Exactly one row for each project and hosted family with a saved key, taken from the best candidate. */
  lemma SeedingPicksBest(t: Tables, cs: seq<Candidate>, rows: seq<Provider>, k: Key)
    requires OrderedBy(Before, cs) && (forall c :: c in cs <==> IsCandidate(t, c)) && Seeded(cs, rows)
    ensures (exists r :: r in rows && RowKey(r) == k) <==> exists c :: IsCandidate(t, c) && KeyOf(c) == Some(k)
    ensures forall r, s :: r in rows && s in rows && RowKey(r) == k == RowKey(s) ==> r == s
    ensures forall r :: r in rows && RowKey(r) == k ==> exists c :: IsBest(t, k, c) && r == SeededRow(c, k.1)
  {
    FirstIsLeast(KeyOf, Before, cs, k);
    var w := First(KeyOf, cs, k);
    if w.Some? {
      assert IsBest(t, k, w.value);
      assert RowKey(SeededRow(w.value, k.1)) == k;
      assert SeededRow(w.value, k.1) in rows;
    }
    if c :| IsCandidate(t, c) && KeyOf(c) == Some(k) {
      assert c in cs;
    }
  }

  /** `w` is the widget the tuning of `k` follows: owner first, then most recent. */
  ghost predicate IsLeading(owners: Owners, table: seq<Widget>, k: Key, w: Widget) {
    && w in table && w.project in owners && SurfaceKey(w) == Some(k)
    && forall v :: v in table && v.project in owners && SurfaceKey(v) == Some(k) ==> v == w || OwnerFirst(owners)(w, v)
  }

  lemma NewestIsLeading(owners: Owners, table: seq<Widget>, rows: seq<Widget>, k: Key)
    requires Answers(table, InProject(owners), OwnerFirst(owners), rows)
    ensures match Newest(rows, k)
      case None => forall v :: v in table && v.project in owners ==> SurfaceKey(v) != Some(k)
      case Some(values) => exists w :: IsLeading(owners, table, k, w) && values == ValuesOf(w)
  {
    FirstIsLeast(SurfaceKey, OwnerFirst(owners), rows, k);
    AnswerRows(table, InProject(owners), OwnerFirst(owners), rows);
    assert forall v :: v in table && v.project in owners ==> InProject(owners)(v) && v in rows;
    var w := First(SurfaceKey, rows, k);
    if w.Some? {
      assert InProject(owners)(w.value);
      assert IsLeading(owners, table, k, w.value);
    }
  }

  /** One surface of a tuned row: the shared temperature if set, else everything from the leading widget. */
  ghost predicate TunedFrom(owners: Owners, table: seq<Widget>, shared: Option<string>, k: Key, v: Values) {
    if forall w :: w in table && w.project in owners ==> SurfaceKey(w) != Some(k)
    then v == Values(if OrEmpty(shared) != "" then shared else None, None, None)
    else exists w :: IsLeading(owners, table, k, w) &&
           v == Values(if OrEmpty(shared) != "" then shared else w.shared.temperature, w.threshold, w.maxTokens)
  }

  /** On freshly added columns every row ends up tuned from the leading widgets of its own project and family. */
  lemma TuningFollowsLeadingWidget(t: Tables, chatRows: seq<Widget>, searchRows: seq<Widget>, p: Provider)
    requires Answers(t.chatbot, InProject(t.owners), OwnerFirst(t.owners), chatRows)
    requires Answers(t.search, InProject(t.owners), OwnerFirst(t.owners), searchRows)
    ensures TunedFrom(t.owners, t.chatbot, p.shared.temperature, RowKey(p), TuningFor(chatRows, searchRows, p).chat)
    ensures TunedFrom(t.owners, t.search, p.shared.temperature, RowKey(p), TuningFor(chatRows, searchRows, p).search)
  {
    NewestIsLeading(t.owners, t.chatbot, chatRows, RowKey(p));
    NewestIsLeading(t.owners, t.search, searchRows, RowKey(p));
  }

  /** A seeded family is the family tuning looks up, and every family tuning knows but "ollama" is seeded. */
  lemma FamiliesAgree(c: Candidate, k: Key)
    ensures KeyOf(c) == Some(k) <==>
      c.project == k.0 && SurfaceFamily(c.provider) == Some(k.1) && k.1 in {"gemini", "mistral", "anthropic", "openai"}
    ensures SurfaceFamily(c.provider) == None ==> KeyOf(c) == None
  {
  }

  /** A provider's lower-case name without outer blanks holds the word. */
  ghost predicate Names(provider: Option<string>, word: string) {
    provider.Some? && Contains(Lower(Strip(provider.value)), word)
  }

  /** Which words stand for which family, which decide where several occur, and that nothing else does. */
  lemma FamilyMeaning(provider: Option<string>)
    ensures var gemini := Names(provider, "google") || Names(provider, "gemini");
      var mistral, openai := Names(provider, "mistral"), Names(provider, "openai");
      var anthropic := Names(provider, "anthropic") || Names(provider, "claude");
      var ollama := Names(provider, "ollama") || Names(provider, "custom");
      && (SurfaceFamily(provider) == Some("gemini") <==> gemini)
      && (SurfaceFamily(provider) == Some("mistral") <==> mistral && !gemini)
      && (SurfaceFamily(provider) == Some("anthropic") <==> anthropic && !gemini && !mistral)
      && (SurfaceFamily(provider) == Some("openai") <==> openai && !gemini && !mistral && !anthropic)
      && (SurfaceFamily(provider) == Some("ollama") <==> ollama && !gemini && !mistral && !anthropic && !openai)
      && (SurfaceFamily(provider) == None <==> !gemini && !mistral && !anthropic && !openai && !ollama)
  {
    if provider == None {
      NothingNamed();
    }
  }

  lemma NothingNamed()
    ensures forall word :: word in {"google", "gemini", "mistral", "anthropic", "claude", "openai", "ollama", "custom"} ==>
      !Contains("", word)
  {
  }

  lemma OrdersAreTotal(owners: Owners)
    ensures TotalPreorder(OwnerFirst(owners)) && TotalPreorder(NewestWidget) && TotalPreorder(NewestProfile)
  {
    forall a, b, c | OwnerFirst(owners)(a, b) && OwnerFirst(owners)(b, c) ensures OwnerFirst(owners)(a, c) {}
    forall a, b, c | NewestWidget(a, b) && NewestWidget(b, c) ensures NewestWidget(a, c) {}
    forall a, b, c | NewestProfile(a, b) && NewestProfile(b, c) ensures NewestProfile(a, c) {}
  }

  /** Whatever the tables hold, each query has an answer. */
  lemma AnswersExist(t: Tables) returns (chatbot: seq<Widget>, search: seq<Widget>, profiles: seq<Profile>, chatRows: seq<Widget>, searchRows: seq<Widget>)
    ensures Answers(t.chatbot, SavedChatbot(t.owners), OwnerFirst(t.owners), chatbot)
    ensures Answers(t.search, SavedSearch, NewestWidget, search)
    ensures Answers(t.profiles, SavedProfile, NewestProfile, profiles)
    ensures Answers(t.chatbot, InProject(t.owners), OwnerFirst(t.owners), chatRows)
    ensures Answers(t.search, InProject(t.owners), OwnerFirst(t.owners), searchRows)
  {
    OrdersAreTotal(t.owners);
    chatbot := Sort(OwnerFirst(t.owners), SavedChatbot(t.owners), t.chatbot);
    search := Sort(NewestWidget, SavedSearch, t.search);
    profiles := Sort(NewestProfile, SavedProfile, t.profiles);
    chatRows := Sort(OwnerFirst(t.owners), InProject(t.owners), t.chatbot);
    searchRows := Sort(OwnerFirst(t.owners), InProject(t.owners), t.search);
    SortAnswers(OwnerFirst(t.owners), SavedChatbot(t.owners), t.chatbot);
    SortAnswers(NewestWidget, SavedSearch, t.search);
    SortAnswers(NewestProfile, SavedProfile, t.profiles);
    SortAnswers(OwnerFirst(t.owners), InProject(t.owners), t.chatbot);
    SortAnswers(OwnerFirst(t.owners), InProject(t.owners), t.search);
  }

  /** The row comes from the best saved key of its project and family and is tuned from the leading widgets. */
  ghost predicate BestAndTuned(t: Tables, r: Provider) {
    && (exists c :: IsBest(t, RowKey(r), c) && r.(tuning := Tuning(NO_VALUES, NO_VALUES)) == SeededRow(c, r.family))
    && TunedFrom(t.owners, t.chatbot, r.shared.temperature, RowKey(r), r.tuning.chat)
    && TunedFrom(t.owners, t.search, r.shared.temperature, RowKey(r), r.tuning.search)
  }

  // ---- Whose key and whose values -----------------------------------------------------------------

  /** A widget of the project and family with a saved key. */
  ghost predicate Keyed(table: seq<Widget>, k: Key, w: Widget) {
    && w in table && w.project == k.0 && Family(w.provider) == Some(k.1)
    && w.apiKey.Some? && w.apiKey.value != ""
  }

  ghost predicate KeyedProfile(table: seq<Profile>, k: Key, p: Profile) {
    && p in table && p.project == Some(k.0) && Family(Some(p.provider)) == Some(k.1)
    && p.apiKey.Some? && p.apiKey.value != ""
  }

  /** The provider row holds what the widget holds; an empty text counts as missing. */
  ghost predicate CopiedFrom(w: Widget, r: Provider) {
    && w.apiKey == Some(r.apiKey) && r.shared == w.shared
    && r.model == (if w.model == Some("") then None else w.model)
    && r.embedding == (if w.embedding == Some("") || r.family == "anthropic" then None else w.embedding)
  }

  ghost predicate CopiedFromProfile(p: Profile, r: Provider) {
    && p.apiKey == Some(r.apiKey) && r.shared == Shared(None, None, None, None, None)
    && r.model == (if p.model == "" then None else Some(p.model))
    && r.embedding == (if p.embedding == Some("") || r.family == "anthropic" then None else p.embedding)
  }

  lemma BestBeats(t: Tables, k: Key, c: Candidate, d: Candidate)
    requires IsBest(t, k, c) && IsCandidate(t, d) && KeyOf(d) == Some(k)
    ensures d == c || Before(c, d)
  {
  }

  lemma KeyedIsCandidate(t: Tables, k: Key, w: Widget)
    requires k.0 in t.owners
    ensures Keyed(t.chatbot, k, w) ==> IsCandidate(t, FromChatbot(t.owners, w)) && KeyOf(FromChatbot(t.owners, w)) == Some(k)
    ensures Keyed(t.search, k, w) ==> IsCandidate(t, FromSearch(w)) && KeyOf(FromSearch(w)) == Some(k)
  {
  }

  lemma KeyedProfileIsCandidate(t: Tables, k: Key, p: Profile)
    requires KeyedProfile(t.profiles, k, p)
    ensures IsCandidate(t, FromProfile(p)) && KeyOf(FromProfile(p)) == Some(k)
  {
  }

  lemma BestChatbot(t: Tables, k: Key, c: Candidate, w: Widget) returns (v: Widget)
    requires IsBest(t, k, c) && k.0 in t.owners && Keyed(t.chatbot, k, w)
    ensures Keyed(t.chatbot, k, v) && c == FromChatbot(t.owners, v)
    ensures forall u :: Keyed(t.chatbot, k, u) ==> FromChatbot(t.owners, u) == c || Before(c, FromChatbot(t.owners, u))
  {
    forall u | Keyed(t.chatbot, k, u) ensures FromChatbot(t.owners, u) == c || Before(c, FromChatbot(t.owners, u)) {
      KeyedIsCandidate(t, k, u);
      BestBeats(t, k, c, FromChatbot(t.owners, u));
    }
    assert c.source == 0;
    v :| v in t.chatbot && SavedChatbot(t.owners)(v) && c == FromChatbot(t.owners, v);
  }

  /** The owner's widget goes before anybody else's, and the more recent one before the others of the same rank. */
  lemma ChatbotOrder(owners: Owners, v: Widget, u: Widget)
    requires v.project == u.project && v.project in owners
    requires FromChatbot(owners, u) == FromChatbot(owners, v) || Before(FromChatbot(owners, v), FromChatbot(owners, u))
    ensures u.user == owners[v.project] ==> v.user == owners[v.project]
    ensures (u.user == owners[v.project] <==> v.user == owners[v.project]) ==>
              v.updated == None || (u.updated != None && v.updated.value >= u.updated.value)
  {
  }

  lemma CopiedFromChatbot(t: Tables, r: Provider, v: Widget)
    requires Keyed(t.chatbot, RowKey(r), v)
    requires r.(tuning := Tuning(NO_VALUES, NO_VALUES)) == SeededRow(FromChatbot(t.owners, v), r.family)
    ensures CopiedFrom(v, r)
  {
  }

  /**
   A key saved in a chatbot widget of the project's owner goes before any other: the provider row is copied
   from such a widget, and from a most recently updated one.
   */
  lemma OwnersKeyIsSeeded(t: Tables, r: Provider, w: Widget)
    requires BestAndTuned(t, r) && Keyed(t.chatbot, RowKey(r), w)
    requires r.project in t.owners && w.user == t.owners[r.project]
    ensures exists v :: Keyed(t.chatbot, RowKey(r), v) && v.user == t.owners[r.project] && CopiedFrom(v, r)
              && forall u :: Keyed(t.chatbot, RowKey(r), u) && u.user == t.owners[r.project] ==>
                   v.updated == None || (u.updated != None && v.updated.value >= u.updated.value)
  {
    var c :| IsBest(t, RowKey(r), c) && r.(tuning := Tuning(NO_VALUES, NO_VALUES)) == SeededRow(c, r.family);
    var v := BestChatbot(t, RowKey(r), c, w);
    ChatbotOrder(t.owners, v, w);
    CopiedFromChatbot(t, r, v);
    forall u | Keyed(t.chatbot, RowKey(r), u) && u.user == t.owners[r.project]
      ensures v.updated == None || (u.updated != None && v.updated.value >= u.updated.value)
    {
      ChatbotOrder(t.owners, v, u);
    }
  }

  /** Otherwise a chatbot widget of anybody goes before the search and profile keys, the most recent one. */
  lemma ChatbotKeyIsSeeded(t: Tables, r: Provider, w: Widget)
    requires BestAndTuned(t, r) && r.project in t.owners && Keyed(t.chatbot, RowKey(r), w)
    requires forall u :: Keyed(t.chatbot, RowKey(r), u) ==> u.user != t.owners[r.project]
    ensures exists v :: Keyed(t.chatbot, RowKey(r), v) && CopiedFrom(v, r)
              && forall u :: Keyed(t.chatbot, RowKey(r), u) ==>
                   v.updated == None || (u.updated != None && v.updated.value >= u.updated.value)
  {
    var c :| IsBest(t, RowKey(r), c) && r.(tuning := Tuning(NO_VALUES, NO_VALUES)) == SeededRow(c, r.family);
    var v := BestChatbot(t, RowKey(r), c, w);
    CopiedFromChatbot(t, r, v);
    forall u | Keyed(t.chatbot, RowKey(r), u)
      ensures v.updated == None || (u.updated != None && v.updated.value >= u.updated.value)
    {
      ChatbotOrder(t.owners, v, u);
    }
  }

  lemma NotFromChatbot(t: Tables, k: Key, c: Candidate)
    requires IsCandidate(t, c) && KeyOf(c) == Some(k) && forall u :: !Keyed(t.chatbot, k, u)
    ensures c.source != 0
  {
    if c.source == 0 {
      var v :| v in t.chatbot && SavedChatbot(t.owners)(v) && c == FromChatbot(t.owners, v);
      assert Keyed(t.chatbot, k, v);
    }
  }

  lemma NotFromSearch(t: Tables, k: Key, c: Candidate)
    requires IsCandidate(t, c) && KeyOf(c) == Some(k) && forall u :: !Keyed(t.search, k, u)
    ensures c.source != 1
  {
    if c.source == 1 {
      var v :| v in t.search && SavedSearch(v) && c == FromSearch(v);
      assert Keyed(t.search, k, v);
    }
  }

  lemma BestSearch(t: Tables, k: Key, c: Candidate, w: Widget) returns (v: Widget)
    requires IsBest(t, k, c) && c.source != 0 && Keyed(t.search, k, w)
    ensures Keyed(t.search, k, v) && c == FromSearch(v)
    ensures forall u :: Keyed(t.search, k, u) ==> FromSearch(u) == c || Before(c, FromSearch(u))
  {
    forall u | Keyed(t.search, k, u) ensures FromSearch(u) == c || Before(c, FromSearch(u)) {
      assert IsCandidate(t, FromSearch(u)) && KeyOf(FromSearch(u)) == Some(k);
      BestBeats(t, k, c, FromSearch(u));
    }
    assert c.source == 1;
    v :| v in t.search && SavedSearch(v) && c == FromSearch(v);
  }

  lemma SearchOrder(v: Widget, u: Widget)
    requires FromSearch(u) == FromSearch(v) || Before(FromSearch(v), FromSearch(u))
    ensures v.updated == None || (u.updated != None && v.updated.value >= u.updated.value)
  {
  }

  lemma CopiedFromSearch(t: Tables, r: Provider, v: Widget)
    requires Keyed(t.search, RowKey(r), v) && r.(tuning := Tuning(NO_VALUES, NO_VALUES)) == SeededRow(FromSearch(v), r.family)
    ensures CopiedFrom(v, r)
  {
  }

  /** Without a chatbot key a search widget goes before the profiles, the most recent one. */
  lemma SearchKeyIsSeeded(t: Tables, r: Provider, w: Widget)
    requires BestAndTuned(t, r) && Keyed(t.search, RowKey(r), w)
    requires forall u :: !Keyed(t.chatbot, RowKey(r), u)
    ensures exists v :: Keyed(t.search, RowKey(r), v) && CopiedFrom(v, r)
              && forall u :: Keyed(t.search, RowKey(r), u) ==>
                   v.updated == None || (u.updated != None && v.updated.value >= u.updated.value)
  {
    var c :| IsBest(t, RowKey(r), c) && r.(tuning := Tuning(NO_VALUES, NO_VALUES)) == SeededRow(c, r.family);
    NotFromChatbot(t, RowKey(r), c);
    var v := BestSearch(t, RowKey(r), c, w);
    CopiedFromSearch(t, r, v);
    forall u | Keyed(t.search, RowKey(r), u)
      ensures v.updated == None || (u.updated != None && v.updated.value >= u.updated.value)
    {
      SearchOrder(v, u);
    }
  }

  lemma BestProfile(t: Tables, k: Key, c: Candidate) returns (p: Profile)
    requires IsBest(t, k, c) && c.source != 0 && c.source != 1
    ensures KeyedProfile(t.profiles, k, p) && c == FromProfile(p)
    ensures forall q :: KeyedProfile(t.profiles, k, q) ==> FromProfile(q) == c || Before(c, FromProfile(q))
  {
    forall q | KeyedProfile(t.profiles, k, q) ensures FromProfile(q) == c || Before(c, FromProfile(q)) {
      KeyedProfileIsCandidate(t, k, q);
      BestBeats(t, k, c, FromProfile(q));
    }
    p :| p in t.profiles && SavedProfile(p) && c == FromProfile(p);
  }

  lemma ProfileOrder(p: Profile, q: Profile)
    requires FromProfile(q) == FromProfile(p) || Before(FromProfile(p), FromProfile(q))
    ensures p.updated == None || (q.updated != None && p.updated.value >= q.updated.value)
  {
  }

  lemma CopiedFromBestProfile(t: Tables, r: Provider, p: Profile)
    requires KeyedProfile(t.profiles, RowKey(r), p)
    requires r.(tuning := Tuning(NO_VALUES, NO_VALUES)) == SeededRow(FromProfile(p), r.family)
    ensures CopiedFromProfile(p, r)
  {
  }

  /** What is left comes from the most recent profile. */
  lemma ProfileKeyIsSeeded(t: Tables, r: Provider)
    requires BestAndTuned(t, r)
    requires forall u :: !Keyed(t.chatbot, RowKey(r), u) && !Keyed(t.search, RowKey(r), u)
    ensures exists p :: KeyedProfile(t.profiles, RowKey(r), p) && CopiedFromProfile(p, r)
              && forall q :: KeyedProfile(t.profiles, RowKey(r), q) ==>
                   p.updated == None || (q.updated != None && p.updated.value >= q.updated.value)
  {
    var c :| IsBest(t, RowKey(r), c) && r.(tuning := Tuning(NO_VALUES, NO_VALUES)) == SeededRow(c, r.family);
    NotFromChatbot(t, RowKey(r), c);
    NotFromSearch(t, RowKey(r), c);
    var p := BestProfile(t, RowKey(r), c);
    CopiedFromBestProfile(t, r, p);
    forall q | KeyedProfile(t.profiles, RowKey(r), q)
      ensures p.updated == None || (q.updated != None && p.updated.value >= q.updated.value)
    {
      ProfileOrder(p, q);
    }
  }

  /** A widget of the project and family on one surface, with a key or without. */
  ghost predicate OnSurface(table: seq<Widget>, k: Key, w: Widget) {
    w in table && w.project == k.0 && SurfaceFamily(w.provider) == Some(k.1)
  }

  /** The surface is tuned as the widget is, but for a shared temperature. */
  ghost predicate TunedAs(w: Widget, shared: Option<string>, v: Values) {
    && v.threshold == w.threshold && v.maxTokens == w.maxTokens
    && v.temperature == (if shared == None || shared == Some("") then w.shared.temperature else shared)
  }

  lemma LeadingOf(owners: Owners, table: seq<Widget>, shared: Option<string>, k: Key, v: Values, w: Widget) returns (o: Widget)
    requires TunedFrom(owners, table, shared, k, v) && k.0 in owners && OnSurface(table, k, w)
    ensures OnSurface(table, k, o) && TunedAs(o, shared, v)
    ensures forall u :: OnSurface(table, k, u) ==> u == o || OwnerFirst(owners)(o, u)
  {
    assert SurfaceKey(w) == Some(k);
    o :| IsLeading(owners, table, k, o) &&
      v == Values(if OrEmpty(shared) != "" then shared else o.shared.temperature, o.threshold, o.maxTokens);
    forall u | OnSurface(table, k, u) ensures u == o || OwnerFirst(owners)(o, u) {
      assert SurfaceKey(u) == Some(k);
    }
  }

  lemma WidgetOrder(owners: Owners, v: Widget, u: Widget)
    requires v.project == u.project && v.project in owners && (u == v || OwnerFirst(owners)(v, u))
    ensures u.user == owners[v.project] ==> v.user == owners[v.project]
    ensures (u.user == owners[v.project] <==> v.user == owners[v.project]) ==>
              v.updated == None || (u.updated != None && v.updated.value >= u.updated.value)
  {
  }

  /** If the project's owner has a widget of the family, each surface is tuned as a most recent one of the owner's. */
  lemma OwnersWidgetLeads(owners: Owners, table: seq<Widget>, shared: Option<string>, k: Key, v: Values, w: Widget)
    requires TunedFrom(owners, table, shared, k, v) && k.0 in owners && OnSurface(table, k, w) && w.user == owners[k.0]
    ensures exists o :: OnSurface(table, k, o) && TunedAs(o, shared, v) && o.user == owners[k.0]
              && forall u :: OnSurface(table, k, u) && u.user == owners[k.0] ==>
                   o.updated == None || (u.updated != None && o.updated.value >= u.updated.value)
  {
    var o := LeadingOf(owners, table, shared, k, v, w);
    WidgetOrder(owners, o, w);
    forall u | OnSurface(table, k, u) && u.user == owners[k.0]
      ensures o.updated == None || (u.updated != None && o.updated.value >= u.updated.value)
    {
      WidgetOrder(owners, o, u);
    }
  }

  /** Otherwise as a most recent widget of anybody. */
  lemma NewestWidgetLeads(owners: Owners, table: seq<Widget>, shared: Option<string>, k: Key, v: Values, w: Widget)
    requires TunedFrom(owners, table, shared, k, v) && k.0 in owners && OnSurface(table, k, w)
    requires forall u :: OnSurface(table, k, u) ==> u.user != owners[k.0]
    ensures exists o :: OnSurface(table, k, o) && TunedAs(o, shared, v)
              && forall u :: OnSurface(table, k, u) ==>
                   o.updated == None || (u.updated != None && o.updated.value >= u.updated.value)
  {
    var o := LeadingOf(owners, table, shared, k, v, w);
    forall u | OnSurface(table, k, u)
      ensures o.updated == None || (u.updated != None && o.updated.value >= u.updated.value)
    {
      WidgetOrder(owners, o, u);
    }
  }

  lemma RowIsRight(t: Tables, cs: seq<Candidate>, rows: seq<Provider>, chatRows: seq<Widget>, searchRows: seq<Widget>, p: Provider)
    requires OrderedBy(Before, cs) && (forall c :: c in cs <==> IsCandidate(t, c)) && Seeded(cs, rows) && p in rows
    requires Answers(t.chatbot, InProject(t.owners), OwnerFirst(t.owners), chatRows)
    requires Answers(t.search, InProject(t.owners), OwnerFirst(t.owners), searchRows)
    ensures p.tuning == Tuning(NO_VALUES, NO_VALUES)
    ensures BestAndTuned(t, p.(tuning := TuningFor(chatRows, searchRows, p)))
  {
    SeedingPicksBest(t, cs, rows, RowKey(p));
    TuningFollowsLeadingWidget(t, chatRows, searchRows, p);
    var r := p.(tuning := TuningFor(chatRows, searchRows, p));
    var c :| IsBest(t, RowKey(p), c) && p == SeededRow(c, p.family);
    assert r.(tuning := Tuning(NO_VALUES, NO_VALUES)) == SeededRow(c, r.family);
  }

  /** Seeding then tuning, end to end. */
  method Upgrade(t: Tables, chatbot: seq<Widget>, search: seq<Widget>, profiles: seq<Profile>,
                 chatRows: seq<Widget>, searchRows: seq<Widget>)
    returns (table: ProviderTable)
    requires Answers(t.chatbot, SavedChatbot(t.owners), OwnerFirst(t.owners), chatbot)
    requires Answers(t.search, SavedSearch, NewestWidget, search)
    requires Answers(t.profiles, SavedProfile, NewestProfile, profiles)
    requires Answers(t.chatbot, InProject(t.owners), OwnerFirst(t.owners), chatRows)
    requires Answers(t.search, InProject(t.owners), OwnerFirst(t.owners), searchRows)
    ensures OneRowPerKey(table.rows)
    ensures forall i :: 0 <= i < |table.rows| ==> BestAndTuned(t, table.rows[i])
    ensures forall c :: IsCandidate(t, c) && KeyOf(c).Some? ==>
              exists i :: 0 <= i < |table.rows| && RowKey(table.rows[i]) == KeyOf(c).value
  {
    var cs := SeedCandidates(t, chatbot, search, profiles);
    var inserts := Seed(cs);
    table := new ProviderTable(inserts);
    table.Backfill(chatRows, searchRows);
    forall i | 0 <= i < |table.rows|
      ensures table.rows[i] == inserts[i].(tuning := TuningFor(chatRows, searchRows, inserts[i]))
      ensures BestAndTuned(t, table.rows[i])
    {
      assert inserts[i] in inserts;
      RowIsRight(t, cs, inserts, chatRows, searchRows, inserts[i]);
    }
    forall c | IsCandidate(t, c) && KeyOf(c).Some?
      ensures exists i :: 0 <= i < |table.rows| && RowKey(table.rows[i]) == KeyOf(c).value
    {
      SeedingPicksBest(t, cs, inserts, KeyOf(c).value);
      var r :| r in inserts && RowKey(r) == KeyOf(c).value;
      var i :| 0 <= i < |inserts| && inserts[i] == r;
      assert RowKey(table.rows[i]) == KeyOf(c).value;
    }
  }
}
