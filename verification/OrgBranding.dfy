/**
 Model of backfill_org_branding in backend/app/schema_safety_net.py and of the branding loop of
 backend/alembic/versions/x4y5z6a7b8c9_org_workspace_branding.py.
 */
module OrgBranding {
  import opened Text
  import opened Priority

  datatype Branding = Branding(logo: Option<string>, color: Option<string>)

  /** A settings row joined with its user's organization and the role held there. */
  datatype MemberRow = MemberRow(user: nat, org: nat, logo: Option<string>, color: Option<string>,
                                 role: Option<string>, updated: Option<int>)

  datatype Field = Logo | Color

  function Get(f: Field, r: MemberRow): Option<string> {
    match f case Logo => r.logo case Color => r.color
  }

  function OfOrg(f: Field, b: Branding): Option<string> {
    match f case Logo => b.logo case Color => b.color
  }

  function Stripped(value: Option<string>): string {
    match value case Some(s) => Strip(s) case None => ""
  }

  // ---- The two orders --------------------------------------------------------------------------

  function RoleRank(r: MemberRow): nat {
    if r.role == Some("org_admin") then 0 else 1
  }

  /** `btrim(logo) <> ''`: SQL trims blanks only, unlike `str.strip`. */
  function LogoRank(r: MemberRow): nat {
    if r.logo.Some? && exists c | c in r.logo.value :: c != ' ' then 0 else 1
  }

  predicate Ranked(a: MemberRow, b: MemberRow, newest: bool) {
    || RoleRank(a) < RoleRank(b)
    || (RoleRank(a) == RoleRank(b) && LogoRank(a) < LogoRank(b))
    || (RoleRank(a) == RoleRank(b) && LogoRank(a) == LogoRank(b) && newest)
  }

  /** `updated_at DESC NULLS LAST` */
  predicate NullsLast(a: MemberRow, b: MemberRow) {
    Ranked(a, b, b.updated.None? || (a.updated.Some? && a.updated.value >= b.updated.value))
  }

  /** `updated_at DESC`, where PostgreSQL puts NULL first. */
  predicate NullsFirst(a: MemberRow, b: MemberRow) {
    Ranked(a, b, a.updated.None? || (b.updated.Some? && a.updated.value >= b.updated.value))
  }

  function InOrg(org: nat): MemberRow -> bool {
    (r: MemberRow) => r.org == org
  }

  // ---- Choosing --------------------------------------------------------------------------------

  function NonBlank(f: Field): MemberRow -> Option<()> {
    (r: MemberRow) => if Stripped(Get(f, r)) != "" then Some(()) else None
  }

  /** The stripped value of the first row that has one. */
  function Chosen(f: Field, rows: seq<MemberRow>): Option<string> {
    match First(NonBlank(f), rows, ()) case Some(r) => Some(Stripped(Get(f, r))) case None => None
  }

  method Choose(rows: seq<MemberRow>) returns (logo: Option<string>, color: Option<string>)
    ensures logo == Chosen(Logo, rows) && color == Chosen(Color, rows)
  {
    logo, color := None, None;
    for i := 0 to |rows|
      invariant logo == Chosen(Logo, rows[..i]) && color == Chosen(Color, rows[..i])
      invariant logo.None? || color.None?
    {
      FirstMore(NonBlank(Logo), rows, i, ());
      FirstMore(NonBlank(Color), rows, i, ());
      if logo.None? && Stripped(rows[i].logo) != "" {
        logo := Some(Stripped(rows[i].logo));
      }
      if color.None? && Stripped(rows[i].color) != "" {
        color := Some(Stripped(rows[i].color));
      }
      if logo.Some? && color.Some? {
        ChosenStays(Logo, rows, i + 1);
        ChosenStays(Color, rows, i + 1);
        return;
      }
    }
    assert rows[..|rows|] == rows;
  }

  lemma {:induction false} ChosenStays(f: Field, rows: seq<MemberRow>, n: nat)
    requires n <= |rows| && Chosen(f, rows[..n]).Some?
    ensures Chosen(f, rows) == Chosen(f, rows[..n])
    decreases |rows| - n
  {
    if n == |rows| {
      assert rows[..n] == rows;
    } else {
      FirstMore(NonBlank(f), rows, n, ());
      ChosenStays(f, rows, n + 1);
    }
  }

  // ---- The backfills ---------------------------------------------------------------------------

  /** `COALESCE(current, chosen)` on both columns. */
  function Filled(b: Branding, rows: seq<MemberRow>): Branding {
    Branding(if b.logo.Some? then b.logo else Chosen(Logo, rows), if b.color.Some? then b.color else Chosen(Color, rows))
  }

  type Orgs = map<nat, Branding>
  type Results = map<nat, seq<MemberRow>>

  /** The answers to the member query, one for each organization, in the given order. */
  ghost predicate Queried(table: seq<MemberRow>, orgs: set<nat>, le: (MemberRow, MemberRow) -> bool, results: Results) {
    forall o :: o in orgs ==> o in results && Answers(table, InOrg(o), le, results[o])
  }

  class Organizations {
    var orgs: Orgs

    constructor (orgs: Orgs)
      ensures this.orgs == orgs
    {
      this.orgs := orgs;
    }

    /** One organization of either loop. */
    method FillOne(o: nat, rows: seq<MemberRow>)
      requires o in orgs
      modifies this
      ensures orgs == old(orgs)[o := Filled(old(orgs)[o], rows)]
    {
      var logo, color := Choose(rows);
      if logo.None? && color.None? {
        assert Filled(orgs[o], rows) == orgs[o];
        return;
      }
      var b := orgs[o];
      orgs := orgs[o := Branding(if b.logo.Some? then b.logo else logo, if b.color.Some? then b.color else color)];
    }

    method FillEach(ids: set<nat>, results: Results)
      requires ids <= orgs.Keys && ids <= results.Keys
      modifies this
      ensures orgs.Keys == old(orgs).Keys
      ensures forall o :: o in orgs ==> orgs[o] == if o in ids then Filled(old(orgs)[o], results[o]) else old(orgs)[o]
    {
      var todo := ids;
      while todo != {}
        invariant todo <= ids && orgs.Keys == old(orgs).Keys
        invariant forall o :: o in orgs ==> orgs[o] == if o in ids - todo then Filled(old(orgs)[o], results[o]) else old(orgs)[o]
        decreases todo
      {
        var o :| o in todo;
        FillOne(o, results[o]);
        todo := todo - {o};
      }
    }

    /** The start-up backfill: organizations that miss a value, nulls last. */
    method SafetyNet(ghost table: seq<MemberRow>, results: Results)
      requires Queried(table, orgs.Keys, NullsLast, results)
      modifies this
      ensures orgs.Keys == old(orgs).Keys
      ensures forall o :: o in orgs ==> orgs[o] == Filled(old(orgs)[o], results[o])
    {
      var missing := set o | o in orgs && (orgs[o].logo.None? || orgs[o].color.None?);
      FillEach(missing, results);
    }

    /** The migration: every organization, nulls first. */
    method Migration(ghost table: seq<MemberRow>, results: Results)
      requires Queried(table, orgs.Keys, NullsFirst, results)
      modifies this
      ensures orgs.Keys == old(orgs).Keys
      ensures forall o :: o in orgs ==> orgs[o] == Filled(old(orgs)[o], results[o])
    {
      FillEach(orgs.Keys, results);
    }
  }

  // ---- What they guarantee -----------------------------------------------------------------------

  /** A value is kept; a missing one is filled exactly when some member has a non-blank one, from the first such member. */
  lemma FilledFromMembers(table: seq<MemberRow>, o: nat, le: (MemberRow, MemberRow) -> bool, rows: seq<MemberRow>, b: Branding, f: Field)
    requires Answers(table, InOrg(o), le, rows)
    ensures var after := OfOrg(f, Filled(b, rows));
      && (OfOrg(f, b).Some? ==> after == OfOrg(f, b))
      && (after.None? <==> OfOrg(f, b).None? && forall r :: r in table && r.org == o ==> Stripped(Get(f, r)) == "")
      && (OfOrg(f, b).None? && after.Some? ==>
            exists r :: r in table && r.org == o && after == Some(Stripped(Get(f, r))) && after != Some("")
                     && forall q :: q in table && q.org == o && Stripped(Get(f, q)) != "" ==> q == r || le(r, q))
  {
    FirstIsLeast(NonBlank(f), le, rows, ());
    AnswerRows(table, InOrg(o), le, rows);
    assert forall r :: NonBlank(f)(r) == Some(()) <==> Stripped(Get(f, r)) != "";
  }

  /** Running either backfill again on the same members changes nothing, whatever order ties come in. */
  lemma FillingAgainKeeps(table: seq<MemberRow>, o: nat, le: (MemberRow, MemberRow) -> bool, rows: seq<MemberRow>,
                          le': (MemberRow, MemberRow) -> bool, rows': seq<MemberRow>, b: Branding)
    requires Answers(table, InOrg(o), le, rows) && Answers(table, InOrg(o), le', rows')
    ensures Filled(Filled(b, rows), rows') == Filled(b, rows)
  {
    FilledFromMembers(table, o, le, rows, b, Logo);
    FilledFromMembers(table, o, le, rows, b, Color);
    FilledFromMembers(table, o, le', rows', Filled(b, rows), Logo);
    FilledFromMembers(table, o, le', rows', Filled(b, rows), Color);
  }

  // ---- Whose branding ---------------------------------------------------------------------------------

  /** A logo with a character other than a blank. */
  ghost predicate HasLogo(r: MemberRow) {
    r.logo.Some? && exists c :: c in r.logo.value && c != ' '
  }

  /** An organization admin before anybody else, then a row with a logo before one without, then `newest`. */
  ghost predicate ComesFirst(w: MemberRow, q: MemberRow, newest: bool) {
    && (q.role == Some("org_admin") ==> w.role == Some("org_admin"))
    && ((q.role == Some("org_admin") <==> w.role == Some("org_admin")) ==>
          && (HasLogo(q) ==> HasLogo(w))
          && ((HasLogo(q) <==> HasLogo(w)) ==> newest))
  }

  /** `a` is at least as recent as `b`; a missing time counts as the oldest. */
  ghost predicate MissingIsOld(a: Option<int>, b: Option<int>) {
    b == None || (a != None && a.value >= b.value)
  }

  /** The same, but a missing time counts as the most recent. */
  ghost predicate MissingIsNew(a: Option<int>, b: Option<int>) {
    a == None || (b != None && a.value >= b.value)
  }

  /** A value other than blanks. */
  ghost predicate HasValue(f: Field, r: MemberRow) {
    Get(f, r).Some? && Strip(Get(f, r).value) != ""
  }

  lemma ChosenRow(f: Field, table: seq<MemberRow>, o: nat, le: (MemberRow, MemberRow) -> bool, rows: seq<MemberRow>)
    returns (w: MemberRow)
    requires Answers(table, InOrg(o), le, rows) && Chosen(f, rows).Some?
    ensures w in table && w.org == o && HasValue(f, w) && Chosen(f, rows) == Some(Strip(Get(f, w).value))
    ensures forall q :: q in table && q.org == o && HasValue(f, q) ==> q == w || le(w, q)
  {
    FirstIsLeast(NonBlank(f), le, rows, ());
    AnswerRows(table, InOrg(o), le, rows);
    w := First(NonBlank(f), rows, ()).value;
    forall q | q in table && q.org == o && HasValue(f, q) ensures q == w || le(w, q) {
      assert q in rows && NonBlank(f)(q) == Some(());
    }
  }

  lemma OrdersMean(w: MemberRow, q: MemberRow)
    ensures q == w || NullsLast(w, q) ==> ComesFirst(w, q, MissingIsOld(w.updated, q.updated))
    ensures q == w || NullsFirst(w, q) ==> ComesFirst(w, q, MissingIsNew(w.updated, q.updated))
  {
  }

  /**
   The safety net fills in, stripped, the value of a row that comes first among the organization's rows with a
   value: admins, then rows with a logo, then the most recent, a missing time last.
   */
  lemma WhoseBranding(f: Field, table: seq<MemberRow>, o: nat, rows: seq<MemberRow>) returns (w: MemberRow)
    requires Answers(table, InOrg(o), NullsLast, rows) && Chosen(f, rows).Some?
    ensures w in table && w.org == o && HasValue(f, w) && Chosen(f, rows) == Some(Strip(Get(f, w).value))
    ensures forall q :: q in table && q.org == o && HasValue(f, q) ==>
              ComesFirst(w, q, MissingIsOld(w.updated, q.updated))
  {
    w := ChosenRow(f, table, o, NullsLast, rows);
    forall q { OrdersMean(w, q); }
  }

  /** The migration the same, but a missing time first. */
  lemma WhoseBrandingMigrated(f: Field, table: seq<MemberRow>, o: nat, rows: seq<MemberRow>) returns (w: MemberRow)
    requires Answers(table, InOrg(o), NullsFirst, rows) && Chosen(f, rows).Some?
    ensures w in table && w.org == o && HasValue(f, w) && Chosen(f, rows) == Some(Strip(Get(f, w).value))
    ensures forall q :: q in table && q.org == o && HasValue(f, q) ==>
              ComesFirst(w, q, MissingIsNew(w.updated, q.updated))
  {
    w := ChosenRow(f, table, o, NullsFirst, rows);
    forall q { OrdersMean(w, q); }
  }

  // ---- When the two backfills agree -----------------------------------------------------------------

  lemma OrdersAreTotal()
    ensures TotalPreorder(NullsLast) && TotalPreorder(NullsFirst)
  {
    forall a, b, c | NullsLast(a, b) && NullsLast(b, c) ensures NullsLast(a, c) {}
    forall a, b, c | NullsFirst(a, b) && NullsFirst(b, c) ensures NullsFirst(a, c) {}
  }

  /** `r` is a row of the organization with a value for `f`. */
  ghost predicate Offers(f: Field, table: seq<MemberRow>, o: nat, r: MemberRow) {
    r in table && r.org == o && Stripped(Get(f, r)) != ""
  }

  /** No row with a value for `f` strictly precedes `r`. */
  ghost predicate Leads(f: Field, table: seq<MemberRow>, o: nat, le: (MemberRow, MemberRow) -> bool, r: MemberRow) {
    Offers(f, table, o, r) && forall q :: Offers(f, table, o, q) ==> !(le(q, r) && !le(r, q))
  }

  ghost predicate LeadsEither(f: Field, table: seq<MemberRow>, o: nat, r: MemberRow) {
    Leads(f, table, o, NullsLast, r) || Leads(f, table, o, NullsFirst, r)
  }

  /** All rows that lead in one of the two orders have one value. */
  ghost predicate OneValue(f: Field, table: seq<MemberRow>, o: nat) {
    forall r, q :: LeadsEither(f, table, o, r) && LeadsEither(f, table, o, q) ==> Stripped(Get(f, r)) == Stripped(Get(f, q))
  }

  /** Whatever order ties come in, both backfills fill the same. */
  ghost predicate AlwaysAgree(table: seq<MemberRow>, o: nat, b: Branding) {
    forall net, migration ::
      Answers(table, InOrg(o), NullsLast, net) && Answers(table, InOrg(o), NullsFirst, migration) ==>
        Filled(b, net) == Filled(b, migration)
  }

  /** What is chosen is the value of a leading row. */
  lemma ChosenLeads(f: Field, table: seq<MemberRow>, o: nat, le: (MemberRow, MemberRow) -> bool, rows: seq<MemberRow>)
    requires TotalPreorder(le) && Answers(table, InOrg(o), le, rows)
    ensures match Chosen(f, rows)
      case None => forall r :: !Offers(f, table, o, r)
      case Some(v) => exists r :: Leads(f, table, o, le, r) && v == Stripped(Get(f, r))
  {
    FirstIsLeast(NonBlank(f), le, rows, ());
    AnswerRows(table, InOrg(o), le, rows);
    assert forall r :: NonBlank(f)(r) == Some(()) <==> Stripped(Get(f, r)) != "";
    if Chosen(f, rows).Some? {
      var w := First(NonBlank(f), rows, ()).value;
      assert Offers(f, table, o, w);
      forall q | Offers(f, table, o, q) ensures !(le(q, w) && !le(w, q)) {
        assert q in rows;
      }
      assert Leads(f, table, o, le, w);
    }
  }

  /** Every leading row is the one chosen in some answer. */
  lemma LeaderChosen(f: Field, table: seq<MemberRow>, o: nat, le: (MemberRow, MemberRow) -> bool, r: MemberRow)
    returns (rows: seq<MemberRow>)
    requires TotalPreorder(le) && Leads(f, table, o, le, r)
    ensures Answers(table, InOrg(o), le, rows) && Chosen(f, rows) == Some(Stripped(Get(f, r)))
  {
    forall y | y in table && InOrg(o)(y) && NonBlank(f)(y) == Some(()) ensures le(r, y) {
      assert Offers(f, table, o, y);
    }
    rows := AnswerStartingWith(NonBlank(f), le, InOrg(o), table, r, ());
  }

  lemma AgreeingValues(f: Field, table: seq<MemberRow>, o: nat, b: Branding, r: MemberRow, q: MemberRow)
    requires AlwaysAgree(table, o, b) && OfOrg(f, b).None?
    requires Leads(f, table, o, NullsLast, r) && Leads(f, table, o, NullsFirst, q)
    ensures Stripped(Get(f, r)) == Stripped(Get(f, q))
  {
    OrdersAreTotal();
    var net := LeaderChosen(f, table, o, NullsLast, r);
    var migration := LeaderChosen(f, table, o, NullsFirst, q);
    assert Filled(b, net) == Filled(b, migration);
  }

  /** Where there is a row with a value there is a leading one in each order. */
  lemma SomeLeader(f: Field, table: seq<MemberRow>, o: nat, le: (MemberRow, MemberRow) -> bool, r: MemberRow) returns (w: MemberRow)
    requires TotalPreorder(le) && Offers(f, table, o, r)
    ensures Leads(f, table, o, le, w)
  {
    var rows := Sort(le, InOrg(o), table);
    SortAnswers(le, InOrg(o), table);
    ChosenLeads(f, table, o, le, rows);
    w :| Leads(f, table, o, le, w);
  }

  lemma AgreeingMeansOneValue(f: Field, table: seq<MemberRow>, o: nat, b: Branding)
    requires AlwaysAgree(table, o, b) && OfOrg(f, b).None?
    ensures OneValue(f, table, o)
  {
    OrdersAreTotal();
    forall r, q | LeadsEither(f, table, o, r) && LeadsEither(f, table, o, q)
      ensures Stripped(Get(f, r)) == Stripped(Get(f, q))
    {
      var last := SomeLeader(f, table, o, NullsLast, r);
      var first := SomeLeader(f, table, o, NullsFirst, r);
      forall x | LeadsEither(f, table, o, x) ensures Stripped(Get(f, x)) == Stripped(Get(f, last)) {
        AgreeingValues(f, table, o, b, last, first);
        if Leads(f, table, o, NullsLast, x) {
          AgreeingValues(f, table, o, b, x, first);
        } else {
          AgreeingValues(f, table, o, b, last, x);
        }
      }
    }
  }

  lemma OneValueChosen(f: Field, table: seq<MemberRow>, o: nat, net: seq<MemberRow>, migration: seq<MemberRow>)
    requires OneValue(f, table, o)
    requires Answers(table, InOrg(o), NullsLast, net) && Answers(table, InOrg(o), NullsFirst, migration)
    ensures Chosen(f, net) == Chosen(f, migration)
  {
    OrdersAreTotal();
    ChosenLeads(f, table, o, NullsLast, net);
    ChosenLeads(f, table, o, NullsFirst, migration);
    if Chosen(f, net).Some? && Chosen(f, migration).Some? {
      var r :| Leads(f, table, o, NullsLast, r) && Chosen(f, net) == Some(Stripped(Get(f, r)));
      var q :| Leads(f, table, o, NullsFirst, q) && Chosen(f, migration) == Some(Stripped(Get(f, q)));
      assert LeadsEither(f, table, o, r) && LeadsEither(f, table, o, q);
    }
  }

  /**
   The safety net and the migration fill the same values, whatever order ties come in, exactly when for every
   field that is missing all rows that lead in one of the two orders have one value.
   */
  lemma AgreeExactly(table: seq<MemberRow>, o: nat, b: Branding)
    ensures AlwaysAgree(table, o, b) <==> forall f :: OfOrg(f, b).None? ==> OneValue(f, table, o)
  {
    if AlwaysAgree(table, o, b) {
      forall f | OfOrg(f, b).None? ensures OneValue(f, table, o) {
        AgreeingMeansOneValue(f, table, o, b);
      }
    }
    if forall f :: OfOrg(f, b).None? ==> OneValue(f, table, o) {
      forall net, migration | Answers(table, InOrg(o), NullsLast, net) && Answers(table, InOrg(o), NullsFirst, migration)
        ensures Filled(b, net) == Filled(b, migration)
      {
        forall f: Field | OfOrg(f, b).None? ensures Chosen(f, net) == Chosen(f, migration) {
          OneValueChosen(f, table, o, net, migration);
        }
        assert b.logo.None? ==> OfOrg(Logo, b).None?;
        assert b.color.None? ==> OfOrg(Color, b).None?;
      }
    }
  }

  /** Rows of one organization have a time each, and no two the same. */
  ghost predicate DistinctTimes(table: seq<MemberRow>, o: nat) {
    && (forall r :: r in table && r.org == o ==> r.updated.Some?)
    && (forall r, q :: r in table && q in table && r.org == o == q.org && r.updated == q.updated ==> r == q)
  }

  /** In particular they agree without missing or equal times. */
  lemma BackfillsAgree(table: seq<MemberRow>, o: nat, b: Branding)
    requires DistinctTimes(table, o)
    ensures AlwaysAgree(table, o, b)
  {
    forall f ensures OneValue(f, table, o) {
      forall r, q | LeadsEither(f, table, o, r) && LeadsEither(f, table, o, q) ensures r == q {
        assert Offers(f, table, o, r) && Offers(f, table, o, q);
      }
    }
    AgreeExactly(table, o, b);
  }

  /** The same rank and the same time, or no time: equal in both orders. */
  ghost predicate Tied(r: MemberRow, q: MemberRow) {
    RoleRank(r) == RoleRank(q) && LogoRank(r) == LogoRank(q) && r.updated == q.updated
  }

  /** Two members who are tied and have different values are enough to separate the backfills. */
  lemma TieSeparates(f: Field, r: MemberRow, q: MemberRow, b: Branding)
    requires Tied(r, q) && r.org == q.org && OfOrg(f, b).None?
    requires Stripped(Get(f, r)) != "" && Stripped(Get(f, q)) != "" && Stripped(Get(f, r)) != Stripped(Get(f, q))
    ensures !AlwaysAgree([r, q], r.org, b)
  {
    var table := [r, q];
    assert Offers(f, table, r.org, r) && Offers(f, table, r.org, q);
    assert Leads(f, table, r.org, NullsLast, r) && Leads(f, table, r.org, NullsLast, q);
    assert LeadsEither(f, table, r.org, r) && LeadsEither(f, table, r.org, q);
    AgreeExactly(table, r.org, b);
  }

  /** With a missing time they can differ: the safety net passes the undated row over, the migration prefers it. */
  lemma MissingTimeSeparates()
    ensures var dated := MemberRow(1, 1, Some("a"), None, Some("org_admin"), Some(5));
      var undated := MemberRow(2, 1, Some("b"), None, Some("org_admin"), None);
      && Answers([dated, undated], InOrg(1), NullsLast, [dated, undated])
      && Answers([dated, undated], InOrg(1), NullsFirst, [undated, dated])
      && Chosen(Logo, [dated, undated]) == Some("a") && Chosen(Logo, [undated, dated]) == Some("b")
  {
    var dated := MemberRow(1, 1, Some("a"), None, Some("org_admin"), Some(5));
    var undated := MemberRow(2, 1, Some("b"), None, Some("org_admin"), None);
    StripKeeps("a");
    StripKeeps("b");
    assert 'a' in dated.logo.value && 'b' in undated.logo.value;
    assert NullsLast(dated, undated) && NullsFirst(undated, dated);
    assert First(NonBlank(Logo), [dated], ()) == Some(dated) by { assert [dated][..0] == []; }
    assert First(NonBlank(Logo), [undated], ()) == Some(undated) by { assert [undated][..0] == []; }
    assert [dated, undated][..1] == [dated] && [undated, dated][..1] == [undated];
  }
}
