/** First-wins selection from an ordered query result, shared by the priority backfills. */
module Priority {
  import opened Text

  ghost predicate OrderedBy<T>(le: (T, T) -> bool, rows: seq<T>) {
    forall i, j :: 0 <= i < j < |rows| ==> le(rows[i], rows[j])
  }

  /** Any answer the database may give: the rows that qualify, as often as they occur, in some order that respects ORDER BY. */
  ghost predicate Answers<T(!new)>(table: seq<T>, where: T -> bool, le: (T, T) -> bool, rows: seq<T>) {
    OrderedBy(le, rows) && forall r :: multiset(rows)[r] == if where(r) then multiset(table)[r] else 0
  }

  lemma AnswerRows<T(!new)>(table: seq<T>, where: T -> bool, le: (T, T) -> bool, rows: seq<T>)
    requires Answers(table, where, le, rows)
    ensures OrderedBy(le, rows) && forall r :: r in rows <==> r in table && where(r)
  {
    forall r ensures r in rows <==> r in table && where(r) {
      assert r in rows <==> multiset(rows)[r] > 0;
      assert r in table <==> multiset(table)[r] > 0;
    }
  }

  /** The first row with key `k`. */
  function First<T, K(==)>(key: T -> Option<K>, rows: seq<T>, k: K): Option<T> {
    if rows == [] then None
    else
      var last := rows[|rows| - 1];
      match First(key, rows[..|rows| - 1], k)
      case Some(r) => Some(r)
      case None => if key(last) == Some(k) then Some(last) else None
  }

  /** The first row with a key exists when some row has it, and no row with the key comes before it in the order. */
  lemma {:induction false} FirstIsLeast<T, K>(key: T -> Option<K>, le: (T, T) -> bool, rows: seq<T>, k: K)
    requires OrderedBy(le, rows)
    ensures First(key, rows, k).Some? <==> exists r :: r in rows && key(r) == Some(k)
    ensures First(key, rows, k).Some? ==>
              var w := First(key, rows, k).value;
              && w in rows && key(w) == Some(k)
              && forall r :: r in rows && key(r) == Some(k) ==> r == w || le(w, r)
  {
    if rows != [] {
      var rest, last := rows[..|rows| - 1], rows[|rows| - 1];
      FirstIsLeast(key, le, rest, k);
      assert rows == rest + [last];
      if First(key, rest, k).Some? {
        var w := First(key, rest, k).value;
        var i :| 0 <= i < |rest| && rest[i] == w;
        assert le(rows[i], rows[|rows| - 1]);
      }
    }
  }

  lemma FirstMore<T, K>(key: T -> Option<K>, rows: seq<T>, i: nat, k: K)
    requires i < |rows|
    ensures First(key, rows[..i + 1], k) ==
      if First(key, rows[..i], k).Some? then First(key, rows[..i], k)
      else if key(rows[i]) == Some(k) then Some(rows[i])
      else None
  {
    assert rows[..i + 1][..i] == rows[..i];
  }

  // ---- Answers that start with a chosen row ------------------------------------------------------------

  ghost predicate TotalPreorder<T(!new)>(le: (T, T) -> bool) {
    && (forall a, b :: le(a, b) || le(b, a))
    && (forall a, b, c :: le(a, b) && le(b, c) ==> le(a, c))
  }

  /** `x` goes in front of everything it may precede. */
  function Insert<T>(le: (T, T) -> bool, x: T, s: seq<T>): seq<T> {
    if s == [] || le(x, s[0]) then [x] + s else [s[0]] + Insert(le, x, s[1..])
  }

  lemma {:induction false} InsertAdds<T>(le: (T, T) -> bool, x: T, s: seq<T>)
    ensures multiset(Insert(le, x, s)) == multiset(s) + multiset{x}
  {
    if s != [] && !le(x, s[0]) {
      InsertAdds(le, x, s[1..]);
      assert s == [s[0]] + s[1..];
    }
  }

  lemma {:induction false} ConsOrders<T>(le: (T, T) -> bool, x: T, s: seq<T>)
    requires OrderedBy(le, s) && forall y :: y in s ==> le(x, y)
    ensures OrderedBy(le, [x] + s)
  {
    var r := [x] + s;
    forall i, j | 0 <= i < j < |r| ensures le(r[i], r[j]) {
      assert r[j] == s[j - 1];
      assert i > 0 ==> r[i] == s[i - 1];
    }
  }

  lemma HeadFirst<T>(le: (T, T) -> bool, s: seq<T>)
    requires s != [] && OrderedBy(le, s)
    ensures OrderedBy(le, s[1..]) && forall y :: y in s[1..] ==> le(s[0], y)
  {
    forall y | y in s[1..] ensures le(s[0], y) {
      var i :| 0 <= i < |s[1..]| && s[1..][i] == y;
      assert le(s[0], s[i + 1]);
    }
  }

  lemma {:induction false} InsertOrders<T(!new)>(le: (T, T) -> bool, x: T, s: seq<T>)
    requires TotalPreorder(le) && OrderedBy(le, s)
    ensures OrderedBy(le, Insert(le, x, s))
  {
    if s == [] {
    } else {
      HeadFirst(le, s);
      assert s == [s[0]] + s[1..];
      if le(x, s[0]) {
        ConsOrders(le, x, s);
      } else {
        InsertOrders(le, x, s[1..]);
        InsertAdds(le, x, s[1..]);
        forall y | y in Insert(le, x, s[1..]) ensures le(s[0], y) {
          assert y in multiset(Insert(le, x, s[1..]));
        }
        ConsOrders(le, s[0], Insert(le, x, s[1..]));
      }
    }
  }

  function Sort<T>(le: (T, T) -> bool, where: T -> bool, table: seq<T>): seq<T> {
    if table == [] then []
    else
      var rest := Sort(le, where, table[1..]);
      if where(table[0]) then Insert(le, table[0], rest) else rest
  }

  lemma {:induction false} SortAnswers<T(!new)>(le: (T, T) -> bool, where: T -> bool, table: seq<T>)
    requires TotalPreorder(le)
    ensures Answers(table, where, le, Sort(le, where, table))
  {
    if table != [] {
      SortAnswers(le, where, table[1..]);
      assert table == [table[0]] + table[1..];
      if where(table[0]) {
        InsertOrders(le, table[0], Sort(le, where, table[1..]));
        InsertAdds(le, table[0], Sort(le, where, table[1..]));
      }
    }
  }

  lemma {:induction false} FirstOfCons<T, K>(key: T -> Option<K>, x: T, s: seq<T>, k: K)
    ensures First(key, [x] + s, k) == if key(x) == Some(k) then Some(x) else First(key, s, k)
  {
    var r := [x] + s;
    if s == [] {
      assert r[..0] == [];
    } else {
      FirstOfCons(key, x, s[..|s| - 1], k);
      assert r[..|r| - 1] == [x] + s[..|s| - 1];
    }
  }

  lemma {:induction false} InsertedIsFirst<T, K>(key: T -> Option<K>, le: (T, T) -> bool, x: T, s: seq<T>, k: K)
    requires key(x) == Some(k) && forall y :: y in s && key(y) == Some(k) ==> le(x, y)
    ensures First(key, Insert(le, x, s), k) == Some(x)
  {
    if s == [] || le(x, s[0]) {
      FirstOfCons(key, x, s, k);
    } else {
      assert s == [s[0]] + s[1..];
      InsertedIsFirst(key, le, x, s[1..], k);
      FirstOfCons(key, s[0], Insert(le, x, s[1..]), k);
    }
  }

  /** Any row that no other row with its key may come before is the first with its key in some answer. */
  lemma AnswerStartingWith<T(!new), K>(key: T -> Option<K>, le: (T, T) -> bool, where: T -> bool, table: seq<T>, x: T, k: K)
    returns (rows: seq<T>)
    requires TotalPreorder(le) && x in table && where(x) && key(x) == Some(k)
    requires forall y :: y in table && where(y) && key(y) == Some(k) ==> le(x, y)
    ensures Answers(table, where, le, rows) && First(key, rows, k) == Some(x)
  {
    var i :| 0 <= i < |table| && table[i] == x;
    var others := table[..i] + table[i + 1..];
    assert table == table[..i] + [x] + table[i + 1..];
    assert multiset(table) == multiset(others) + multiset{x};
    var s := Sort(le, where, others);
    SortAnswers(le, where, others);
    AnswerRows(others, where, le, s);
    rows := Insert(le, x, s);
    InsertOrders(le, x, s);
    InsertAdds(le, x, s);
    forall y | y in s && key(y) == Some(k) ensures le(x, y) {
      assert y in others;
      assert y in table;
    }
    InsertedIsFirst(key, le, x, s, k);
  }
}
