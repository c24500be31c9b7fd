/**
 The part of Python's `re` that the origin pattern uses: reading a pattern text, and what a pattern matches.
 Other syntax is not read. `digit` says which characters \d matches.
 */
module Regex {

  datatype Re =
    | Empty | Lit(c: char) | Any | Digit | Start | End
    | Cat(left: Re, right: Re) | Alt(left: Re, right: Re) | Plus(body: Re) | Star(body: Re) | Opt(body: Re)

  // ---- Reading ---------------------------------------------------------------------------------------

  datatype Reading = Bad | Good(re: Re, rest: string)

  predicate IsSpecial(c: char) {
    c in {'\\', '.', '^', '$', '|', '?', '*', '+', '(', ')', '[', ']', '{', '}'}
  }

  predicate Quantified(s: string) {
    s != "" && s[0] in {'*', '+', '?', '{'}
  }

  function ReadAlt(s: string): (r: Reading)
    ensures r.Good? ==> |r.rest| <= |s|
    decreases |s|, 3
  {
    match ReadCat(s)
    case Bad => Bad
    case Good(a, rest) =>
      if rest != "" && rest[0] == '|' then
        match ReadAlt(rest[1..])
        case Bad => Bad
        case Good(b, end) => Good(Alt(a, b), end)
      else Good(a, rest)
  }

  function ReadCat(s: string): (r: Reading)
    ensures r.Good? ==> |r.rest| <= |s|
    decreases |s|, 2
  {
    if s == "" || s[0] == '|' || s[0] == ')' then Good(Empty, s)
    else
      match ReadPiece(s)
      case Bad => Bad
      case Good(a, rest) =>
        match ReadCat(rest)
        case Bad => Bad
        case Good(b, end) => Good(Cat(a, b), end)
  }

  function ReadPiece(s: string): (r: Reading)
    requires s != ""
    ensures r.Good? ==> |r.rest| < |s|
    decreases |s|, 1
  {
    match ReadAtom(s)
    case Bad => Bad
    case Good(a, rest) =>
      if !Quantified(rest) then Good(a, rest)
      else if Quantified(rest[1..]) then Bad
      else if rest[0] == '+' then Good(Plus(a), rest[1..])
      else if rest[0] == '*' then Good(Star(a), rest[1..])
      else if rest[0] == '?' then Good(Opt(a), rest[1..])
      else Bad
  }

  function ReadAtom(s: string): (r: Reading)
    requires s != ""
    ensures r.Good? ==> |r.rest| < |s|
    decreases |s|, 0
  {
    if s[0] == '(' then
      if |s| < 3 || s[1] != '?' || s[2] != ':' then Bad
      else
        match ReadAlt(s[3..])
        case Bad => Bad
        case Good(a, rest) => if rest != "" && rest[0] == ')' then Good(a, rest[1..]) else Bad
    else if s[0] == '\\' then
      if |s| < 2 then Bad
      else if s[1] == 'd' then Good(Digit, s[2..])
      else if IsSpecial(s[1]) then Good(Lit(s[1]), s[2..])
      else Bad
    else if s[0] == '.' then Good(Any, s[1..])
    else if s[0] == '^' then Good(Start, s[1..])
    else if s[0] == '$' then Good(End, s[1..])
    else if IsSpecial(s[0]) then Bad
    else Good(Lit(s[0]), s[1..])
  }

  // ---- Matching ----------------------------------------------------------------------------------------

  /** `re` matches t[i..j]; '$' also matches before a final newline. */
  ghost predicate Matches(re: Re, t: string, i: nat, j: nat, digit: char -> bool)
    requires i <= j <= |t|
    decreases re, j - i
  {
    match re
    case Empty => i == j
    case Lit(c) => i + 1 == j && t[i] == c
    case Any => i + 1 == j && t[i] != '\n'
    case Digit => i + 1 == j && digit(t[i])
    case Start => i == j == 0
    case End => i == j && (i == |t| || (i + 1 == |t| && t[i] == '\n'))
    case Cat(a, b) => exists k: nat :: i <= k <= j && Matches(a, t, i, k, digit) && Matches(b, t, k, j, digit)
    case Alt(a, b) => Matches(a, t, i, j, digit) || Matches(b, t, i, j, digit)
    case Plus(a) =>
      || Matches(a, t, i, j, digit)
      || exists k: nat :: i < k < j && Matches(a, t, i, k, digit) && Matches(re, t, k, j, digit)
    case Star(a) =>
      || i == j || Matches(a, t, i, j, digit)
      || exists k: nat :: i < k < j && Matches(a, t, i, k, digit) && Matches(re, t, k, j, digit)
    case Opt(a) => i == j || Matches(a, t, i, j, digit)
  }

  /** `re.compile(pattern).fullmatch(t)`; a pattern that cannot be read accepts nothing. */
  ghost predicate FullMatch(pattern: string, t: string, digit: char -> bool) {
    match ReadAlt(pattern)
    case Bad => false
    case Good(re, rest) => rest == "" && Matches(re, t, 0, |t|, digit)
  }

  // ---- Alternatives joined by '|' -------------------------------------------------------------------------

  function Join(ps: seq<string>): string {
    if |ps| == 0 then "" else if |ps| == 1 then ps[0] else ps[0] + "|" + Join(ps[1..])
  }

  predicate EndsPattern(more: string) {
    more == "" || more[0] == '|'
  }

  /** `p` is read the same way whatever alternative follows. */
  ghost predicate SelfContained(p: string) {
    forall more {:trigger p + more} :: EndsPattern(more) ==>
      ReadCat(p + more) == match ReadCat(p) case Bad => Bad case Good(re, _) => Good(re, more)
  }

  ghost predicate PieceMatches(p: string, t: string, digit: char -> bool) {
    match ReadCat(p)
    case Bad => false
    case Good(re, _) => Matches(re, t, 0, |t|, digit)
  }

  lemma ReadAlone(p: string)
    requires SelfContained(p)
    ensures ReadAlt(p) == ReadCat(p) && (ReadCat(p).Good? ==> ReadCat(p).rest == "")
  {
    assert p + "" == p && EndsPattern("");
  }

  lemma ReadFirst(p: string, rest: string)
    requires SelfContained(p)
    ensures ReadAlt(p + "|" + rest) ==
      if ReadCat(p).Good? && ReadAlt(rest).Good? then Good(Alt(ReadCat(p).re, ReadAlt(rest).re), ReadAlt(rest).rest) else Bad
  {
    var more := "|" + rest;
    assert p + "|" + rest == p + more && EndsPattern(more) && more[1..] == rest;
  }

  /** Joined patterns match what one of them matches, unless one of them cannot be read. */
  lemma {:induction false} JoinMatches(ps: seq<string>, t: string, digit: char -> bool)
    requires ps != [] && forall p :: p in ps ==> SelfContained(p)
    ensures var r := ReadAlt(Join(ps));
      && (r.Good? <==> forall p :: p in ps ==> ReadCat(p).Good?)
      && (r.Good? ==> r.rest == "" && (Matches(r.re, t, 0, |t|, digit) <==> exists p :: p in ps && PieceMatches(p, t, digit)))
  {
    var p := ps[0];
    assert p in ps;
    if |ps| == 1 {
      ReadAlone(p);
      assert forall q :: q in ps <==> q == p;
    } else {
      ReadFirst(p, Join(ps[1..]));
      JoinMatches(ps[1..], t, digit);
      assert ps == [p] + ps[1..];
    }
  }

  /** Literal text followed by `r`. */
  function Lits(h: string, r: Re): Re {
    if h == "" then r else Cat(Lit(h[0]), Lits(h[1..], r))
  }

  lemma {:induction false} LitsMatch(h: string, r: Re, t: string, i: nat, j: nat, digit: char -> bool)
    requires i <= j <= |t|
    ensures Matches(Lits(h, r), t, i, j, digit)
       <==> i + |h| <= j && t[i..i + |h|] == h && Matches(r, t, i + |h|, j, digit)
  {
    if h != "" {
      if i < j {
        LitsMatch(h[1..], r, t, i + 1, j, digit);
        if i + |h| <= j {
          assert t[i..i + |h|] == [t[i]] + t[i + 1..i + |h|];
          assert h == [h[0]] + h[1..];
        }
      }
    }
  }

  lemma {:induction false} DigitsMatch(t: string, i: nat, j: nat, digit: char -> bool)
    requires i <= j <= |t|
    ensures Matches(Plus(Digit), t, i, j, digit) <==> i < j && forall k :: i <= k < j ==> digit(t[k])
    decreases j - i
  {
    if i + 1 < j {
      DigitsMatch(t, i + 1, j, digit);
      if digit(t[i]) && Matches(Plus(Digit), t, i + 1, j, digit) {
        assert Matches(Digit, t, i, i + 1, digit);
      }
    }
  }

  lemma {:induction false} PlusMatches(c: char, t: string, i: nat, j: nat, digit: char -> bool)
    requires i <= j <= |t|
    ensures Matches(Plus(Lit(c)), t, i, j, digit) <==> i < j && forall k :: i <= k < j ==> t[k] == c
    decreases j - i
  {
    if i + 1 < j {
      PlusMatches(c, t, i + 1, j, digit);
      if t[i] == c && Matches(Plus(Lit(c)), t, i + 1, j, digit) {
        assert Matches(Lit(c), t, i, i + 1, digit);
      }
    }
  }

  lemma {:induction false} StarMatches(c: char, t: string, i: nat, j: nat, digit: char -> bool)
    requires i <= j <= |t|
    ensures Matches(Star(Lit(c)), t, i, j, digit) <==> forall k :: i <= k < j ==> t[k] == c
    decreases j - i
  {
    if i + 1 < j {
      StarMatches(c, t, i + 1, j, digit);
      if t[i] == c && Matches(Star(Lit(c)), t, i + 1, j, digit) {
        assert Matches(Lit(c), t, i, i + 1, digit);
      }
    }
  }
}
