/** Python string, ordering and option idioms shared by every model. */
module Text {

  datatype Option<+T> = None | Some(value: T)

  /** The characters `str.isspace` accepts, which `str.strip` and `str.split` use. */
  predicate IsSpace(c: char) {
    || ('\t' <= c <= '\r')
    || ('\U{1c}' <= c <= ' ')
    || c in {'\U{85}', '\U{a0}', '\U{1680}', '\U{2028}', '\U{2029}', '\U{202f}', '\U{205f}', '\U{3000}'}
    || ('\U{2000}' <= c <= '\U{200a}')
  }

  lemma SpacesAre(c: char)
    ensures IsSpace(c) <==> c in {
      '\t', '\n', '\U{0b}', '\U{0c}', '\r', '\U{1c}', '\U{1d}', '\U{1e}', '\U{1f}', ' ', '\U{85}', '\U{a0}', '\U{1680}',
      '\U{2000}', '\U{2001}', '\U{2002}', '\U{2003}', '\U{2004}', '\U{2005}', '\U{2006}', '\U{2007}', '\U{2008}',
      '\U{2009}', '\U{200a}', '\U{2028}', '\U{2029}', '\U{202f}', '\U{205f}', '\U{3000}'}
  {
  }

  function LStrip(s: string): string {
    if s != [] && IsSpace(s[0]) then LStrip(s[1..]) else s
  }

  function RStrip(s: string): string {
    if s != [] && IsSpace(s[|s| - 1]) then RStrip(s[..|s| - 1]) else s
  }

  function Strip(s: string): string {
    RStrip(LStrip(s))
  }

  /** What `str.strip` leaves: no blank at either end, and nothing only for a blank text. */
  lemma StripTrims(s: string)
    ensures Strip(s) != [] ==> !IsSpace(Strip(s)[0]) && !IsSpace(Strip(s)[|Strip(s)| - 1])
    ensures Strip(s) == [] <==> forall c :: c in s ==> IsSpace(c)
    ensures Strip(Strip(s)) == Strip(s)
  {
    LStripTrims(s);
    RStripTrims(LStrip(s));
  }

  lemma StripKeeps(s: string)
    requires s != [] && !IsSpace(s[0]) && !IsSpace(s[|s| - 1])
    ensures Strip(s) == s
  {
  }

  lemma {:induction false} LStripTrims(s: string)
    ensures LStrip(s) != [] ==> !IsSpace(LStrip(s)[0])
    ensures LStrip(s) == [] <==> forall c :: c in s ==> IsSpace(c)
    ensures forall c :: c in LStrip(s) ==> c in s
  {
    if s != [] && IsSpace(s[0]) {
      LStripTrims(s[1..]);
      assert s == [s[0]] + s[1..];
    } else if s != [] {
      assert s[0] in s;
    }
  }

  lemma {:induction false} RStripTrims(s: string)
    ensures RStrip(s) != [] ==> !IsSpace(RStrip(s)[|RStrip(s)| - 1]) && RStrip(s)[0] == s[0]
    ensures RStrip(s) == [] <==> forall c :: c in s ==> IsSpace(c)
  {
    if s != [] && IsSpace(s[|s| - 1]) {
      RStripTrims(s[..|s| - 1]);
      assert s == s[..|s| - 1] + [s[|s| - 1]];
    } else if s != [] {
      assert s[|s| - 1] in s;
    }
  }

  /** `str.lower` on the ASCII letters. */
  function LowerChar(c: char): char {
    if 'A' <= c <= 'Z' then c + '\U{20}' else c
  }

  function Lower(s: string): (r: string)
    ensures |r| == |s|
  {
    seq(|s|, i requires 0 <= i < |s| => LowerChar(s[i]))
  }

  lemma LettersLower()
    ensures Lower("ABCDEFGHIJKLMNOPQRSTUVWXYZ") == "abcdefghijklmnopqrstuvwxyz"
    ensures forall c :: !('A' <= c <= 'Z') ==> LowerChar(c) == c
  {
  }

  lemma LowerConcat(a: string, b: string)
    ensures Lower(a + b) == Lower(a) + Lower(b)
  {
  }

  predicate OccursAt(s: string, sub: string, i: nat) {
    i + |sub| <= |s| && s[i..i + |sub|] == sub
  }

  /** `sub in s` */
  predicate Contains(s: string, sub: string) {
    exists i: nat | i <= |s| :: OccursAt(s, sub, i)
  }

  const DIGITS := "0123456789"

  function Decimal(n: nat): string {
    if n < 10 then [DIGITS[n]] else Decimal(n / 10) + [DIGITS[n % 10]]
  }

  lemma {:induction false} DecimalInjective(m: nat, n: nat)
    requires Decimal(m) == Decimal(n)
    ensures m == n
  {
    DecimalNonEmpty(m / 10);
    DecimalNonEmpty(n / 10);
    if m >= 10 && n >= 10 {
      assert Decimal(m / 10) == Decimal(m)[..|Decimal(m)| - 1];
      assert Decimal(n / 10) == Decimal(n)[..|Decimal(n)| - 1];
      DecimalInjective(m / 10, n / 10);
    }
  }

  lemma {:induction false} DecimalNonEmpty(n: nat)
    ensures Decimal(n) != []
    ensures forall c :: c in Decimal(n) ==> '0' <= c <= '9'
  {
    if n >= 10 {
      DecimalNonEmpty(n / 10);
    }
  }

  /** Code-point order, as Python compares strings. */
  predicate StrLt(a: string, b: string) {
    b != [] && (a == [] || a[0] < b[0] || (a[0] == b[0] && StrLt(a[1..], b[1..])))
  }

  ghost predicate StrictTotalOrder<T(!new)>(lt: (T, T) -> bool) {
    && (forall a :: !lt(a, a))
    && (forall a, b :: a != b ==> lt(a, b) || lt(b, a))
    && (forall a, b, c :: lt(a, b) && lt(b, c) ==> lt(a, c))
  }

  lemma {:induction false} StrLtTotal(a: string, b: string)
    ensures !(StrLt(a, b) && StrLt(b, a))
    ensures StrLt(a, b) || StrLt(b, a) || a == b
  {
    if a != [] && b != [] && a[0] == b[0] {
      StrLtTotal(a[1..], b[1..]);
      assert a == [a[0]] + a[1..] && b == [b[0]] + b[1..];
    }
  }

  lemma {:induction false} StrLtTransitive(a: string, b: string, c: string)
    requires StrLt(a, b) && StrLt(b, c)
    ensures StrLt(a, c)
  {
    if a != [] && a[0] == b[0] == c[0] {
      StrLtTransitive(a[1..], b[1..], c[1..]);
    }
  }

  lemma StrLtIsTotalOrder()
    ensures StrictTotalOrder(StrLt)
  {
    forall a, b ensures !(StrLt(a, b) && StrLt(b, a)) && (a != b ==> StrLt(a, b) || StrLt(b, a)) {
      StrLtTotal(a, b);
    }
    forall a, b, c | StrLt(a, b) && StrLt(b, c) ensures StrLt(a, c) {
      StrLtTransitive(a, b, c);
    }
  }

  predicate NatLt(a: nat, b: nat) { a < b }

  ghost predicate Ascending<T>(lt: (T, T) -> bool, s: seq<T>) {
    forall i, j :: 0 <= i < j < |s| ==> lt(s[i], s[j])
  }

  function InsertSorted<T(==)>(lt: (T, T) -> bool, x: T, s: seq<T>): seq<T> {
    if s == [] || lt(x, s[0]) then [x] + s
    else if x == s[0] then s
    else [s[0]] + InsertSorted(lt, x, s[1..])
  }

  /** `sorted(set(xs))` */
  function SortedSet<T(==)>(lt: (T, T) -> bool, xs: seq<T>): seq<T> {
    if xs == [] then [] else InsertSorted(lt, xs[0], SortedSet(lt, xs[1..]))
  }

  lemma {:induction false} InsertSortedAscending<T(!new)>(lt: (T, T) -> bool, x: T, s: seq<T>)
    requires StrictTotalOrder(lt) && Ascending(lt, s)
    ensures Ascending(lt, InsertSorted(lt, x, s))
    ensures forall y :: y in InsertSorted(lt, x, s) <==> y == x || y in s
  {
    var r := InsertSorted(lt, x, s);
    if s == [] {
    } else if lt(x, s[0]) {
      forall j | 0 < j < |r| ensures lt(x, r[j]) {
        assert r[j] == s[j - 1];
      }
    } else if x != s[0] {
      InsertSortedAscending(lt, x, s[1..]);
      assert s == [s[0]] + s[1..];
      forall j | 0 < j < |r| ensures lt(s[0], r[j]) {
        assert r[j] in InsertSorted(lt, x, s[1..]);
        assert lt(s[0], x);
      }
    }
  }

  lemma {:induction false} SortedSetAscending<T(!new)>(lt: (T, T) -> bool, xs: seq<T>)
    requires StrictTotalOrder(lt)
    ensures Ascending(lt, SortedSet(lt, xs))
    ensures forall y :: y in SortedSet(lt, xs) <==> y in xs
  {
    if xs != [] {
      SortedSetAscending(lt, xs[1..]);
      InsertSortedAscending(lt, xs[0], SortedSet(lt, xs[1..]));
      assert xs == [xs[0]] + xs[1..];
    }
  }

  ghost predicate NoDup<T>(s: seq<T>) {
    forall i, j :: 0 <= i < j < |s| ==> s[i] != s[j]
  }

  lemma {:induction false} InjectiveMapSize<X, Y>(f: map<X, Y>)
    requires forall x, y :: x in f && y in f && f[x] == f[y] ==> x == y
    ensures |f.Keys| == |f.Values|
    decreases |f|
  {
    if f == map[] {
      assert f.Values == {};
    } else {
      var k :| k in f;
      var rest := f - {k};
      InjectiveMapSize(rest);
      assert f.Keys == rest.Keys + {k};
      assert f.Values == rest.Values + {f[k]};
    }
  }
}
