/**
 Model of _build_optional_port_origin_regex in backend/app/platform/app_factory.py, and what the generated
 pattern accepts.
 */
module OriginPattern {
  import opened Text
  import opened Regex
  import opened CorsOrigins

  /** A configured scheme and host name, both as urlparse gives them: lower-case, and without brackets. */
  datatype Site = Site(scheme: string, host: string, bracketed: bool)

  const PORT := "(?::\\d+)?$"

  /** The sites an origin list configures; blank, "*" and unparsable entries are skipped. */
  function SiteOf(parse: Parser, origin: string): Option<Site> {
    if origin == "" || origin == "*" then None
    else
      match parse(origin)
      case None => None
      case Some(u) => if u.scheme == "" || u.hostname == "" then None else Some(Site(u.scheme, u.hostname, u.bracketed))
  }

  /** hostname.replace(".", "\\.") */
  function Escape(host: string): string {
    if host == "" then "" else EscapeOne(host[0]) + Escape(host[1..])
  }

  function EscapeOne(c: char): string {
    if c == '.' then "\\." else [c]
  }

  function PatternOf(site: Site): string {
    "^" + site.scheme + SEP + Escape(site.host) + PORT
  }

  function Patterns(parse: Parser, origins: seq<string>): seq<string> {
    if origins == [] then []
    else
      var before, site := Patterns(parse, origins[..|origins| - 1]), SiteOf(parse, origins[|origins| - 1]);
      if site.None? then before else before + [PatternOf(site.value)]
  }

  /** None: there is nothing to match. */
  function Built(parse: Parser, origins: seq<string>): Option<string> {
    var ps := Patterns(parse, origins);
    if ps == [] then None else Some(Join(SortedSet(StrLt, ps)))
  }

  method BuildPattern(parse: Parser, origins: seq<string>) returns (r: Option<string>)
    ensures r == Built(parse, origins)
  {
    var patterns: seq<string> := [];
    for i := 0 to |origins|
      invariant patterns == Patterns(parse, origins[..i])
    {
      assert origins[..i + 1][..i] == origins[..i];
      var origin := origins[i];
      if origin == "" || origin == "*" {
        continue;
      }
      var parsed := parse(origin);
      if parsed.None? {
        continue;
      }
      var scheme, hostname := parsed.value.scheme, parsed.value.hostname;
      if scheme == "" || hostname == "" {
        continue;
      }
      patterns := patterns + ["^" + scheme + SEP + Escape(hostname) + PORT];
    }
    assert origins[..|origins|] == origins;
    if patterns == [] {
      return None;
    }
    r := Some(Join(SortedSet(StrLt, patterns)));
  }

  // ---- What the list asks for ---------------------------------------------------------------------------

  ghost predicate Numeric(s: string, digit: char -> bool) {
    s != "" && forall k :: 0 <= k < |s| ==> digit(s[k])
  }

  /** Nothing, or a numeric port. */
  ghost predicate PortEnd(v: string, digit: char -> bool) {
    v == "" || (v[0] == ':' && Numeric(v[1..], digit))
  }

  /** `u` is `base`, or `base` with a numeric port. */
  ghost predicate WithPort(base: string, u: string, digit: char -> bool) {
    |base| <= |u| && u[..|base|] == base && PortEnd(u[|base|..], digit)
  }

  /** The origin of a site. */
  function Written(site: Site): string {
    site.scheme + SEP + if site.bracketed then "[" + site.host + "]" else site.host
  }

  ghost predicate IsAt(t: string, site: Site, digit: char -> bool) {
    WithPort(Written(site), t, digit)
  }

  ghost predicate Configured(parse: Parser, origins: seq<string>, site: Site) {
    exists o :: o in origins && SiteOf(parse, o) == Some(site)
  }

  ghost predicate Wanted(parse: Parser, origins: seq<string>, t: string, digit: char -> bool) {
    exists site {:trigger IsAt(t, site, digit)} :: Configured(parse, origins, site) && IsAt(t, site, digit)
  }

  /** The pattern accepts what is wanted and nothing else. */
  ghost predicate Exact(parse: Parser, origins: seq<string>, digit: char -> bool)
    requires Built(parse, origins).Some?
  {
    forall t :: FullMatch(Built(parse, origins).value, t, digit) <==> Wanted(parse, origins, t, digit)
  }

  /** Letters, digits, hyphens, dots and whatever else means itself in a pattern. */
  predicate PlainHost(h: string) {
    forall c :: c in h ==> c == '.' || !IsSpecial(c)
  }

  predicate PlainScheme(s: string) {
    '.' !in s && '+' !in s
  }

  // ---- How a pattern is read -------------------------------------------------------------------------------

  const PORT_RE := Cat(Opt(Cat(Lit(':'), Cat(Plus(Digit), Empty))), Cat(End, Empty))

  lemma ReadDigits(more: string)
    ensures ReadCat("\\d+)?$" + more) == Good(Cat(Plus(Digit), Empty), ")?$" + more)
  {
    var s, rest, end := "\\d+)?$" + more, "+)?$" + more, ")?$" + more;
    assert s[2..] == rest && rest[1..] == end;
    assert ReadAtom(s) == Good(Digit, rest);
    assert ReadPiece(s) == Good(Plus(Digit), end);
    assert ReadCat(end) == Good(Empty, end);
  }

  lemma ReadGroup(more: string)
    ensures ReadAtom(PORT + more) == Good(Cat(Lit(':'), Cat(Plus(Digit), Empty)), "?$" + more)
  {
    var s, inner, digits, end := PORT + more, ":\\d+)?$" + more, "\\d+)?$" + more, ")?$" + more;
    assert s[3..] == inner && inner[1..] == digits && end[1..] == "?$" + more;
    assert ReadPiece(inner) == Good(Lit(':'), digits);
    ReadDigits(more);
    assert ReadCat(inner) == Good(Cat(Lit(':'), Cat(Plus(Digit), Empty)), end);
  }

  lemma ReadPort(more: string)
    requires EndsPattern(more)
    ensures ReadCat(PORT + more) == Good(PORT_RE, more)
  {
    var s, rest, end := PORT + more, "?$" + more, "$" + more;
    assert rest[1..] == end && end[1..] == more;
    ReadGroup(more);
    assert ReadPiece(s) == Good(Opt(Cat(Lit(':'), Cat(Plus(Digit), Empty))), end);
    assert ReadPiece(end) == Good(End, more);
    assert ReadCat(more) == Good(Empty, more);
  }

  predicate IsQuantifier(c: char) {
    c == '*' || c == '+'
  }

  /** Plain characters, dots and quantifiers. */
  predicate ReadableChars(s: string) {
    forall c :: c in s ==> c == '.' || IsQuantifier(c) || !IsSpecial(c)
  }

  predicate StartsQuantified(s: string) {
    s != "" && IsQuantifier(s[0])
  }

  /** A scheme stands in the pattern as it is (`raw`), and a host name with its dots escaped. */
  function Encoded(raw: bool, s: string): string {
    if raw then s else Escape(s)
  }

  /** An unescaped dot stands for any character. */
  function AtomRe(raw: bool, c: char): Re {
    if raw && c == '.' then Any else Lit(c)
  }

  /** The first character, with the quantifier behind it. */
  function HeadRe(raw: bool, s: string): Re
    requires s != ""
  {
    var a := AtomRe(raw, s[0]);
    if |s| > 1 && s[1] == '+' then Plus(a) else if |s| > 1 && s[1] == '*' then Star(a) else a
  }

  function AfterFirst(s: string): string
    requires s != ""
  {
    if |s| > 1 && IsQuantifier(s[1]) then s[2..] else s[1..]
  }

  /** Two quantifiers in a row are not read. */
  predicate DoubleQuantifier(s: string) {
    |s| > 2 && IsQuantifier(s[1]) && IsQuantifier(s[2])
  }

  /** How the text is read: a quantifier repeats the character before it. */
  function TextRe(raw: bool, s: string, r: Re): Option<Re>
    decreases |s|
  {
    if s == "" then Some(r)
    else if DoubleQuantifier(s) then None
    else
      match TextRe(raw, AfterFirst(s), r)
      case None => None
      case Some(b) => Some(Cat(HeadRe(raw, s), b))
  }

  lemma EncodedHead(raw: bool, s: string, tail: string)
    requires s != ""
    ensures Encoded(raw, s) + tail == (if raw then [s[0]] else EscapeOne(s[0])) + (Encoded(raw, s[1..]) + tail)
  {
  }

  lemma ReadOne(raw: bool, c: char, rest: string)
    requires c == '.' || !IsSpecial(c)
    ensures var u := (if raw then [c] else EscapeOne(c)) + rest;
      u != "" && u[0] != '|' && u[0] != ')' && !Quantified(u) && ReadAtom(u) == Good(AtomRe(raw, c), rest)
  {
    var u := (if raw then [c] else EscapeOne(c)) + rest;
    if !raw && c == '.' {
      assert u[2..] == rest;
    } else {
      assert u[1..] == rest;
    }
  }

  lemma EncodedStart(raw: bool, s: string, tail: string)
    requires ReadableChars(s) && !Quantified(tail)
    ensures Quantified(Encoded(raw, s) + tail) <==> StartsQuantified(s)
    ensures StartsQuantified(s) ==>
      (Encoded(raw, s) + tail)[0] == s[0] && (Encoded(raw, s) + tail)[1..] == Encoded(raw, s[1..]) + tail
  {
    if s == "" {
      assert Encoded(raw, s) + tail == tail;
    } else {
      assert s[0] in s;
      EncodedHead(raw, s, tail);
      if !IsQuantifier(s[0]) {
        ReadOne(raw, s[0], Encoded(raw, s[1..]) + tail);
      }
    }
  }

  lemma ReadHead(raw: bool, s: string, tail: string)
    requires s != "" && ReadableChars(s) && !StartsQuantified(s) && !Quantified(tail)
    ensures var u := Encoded(raw, s) + tail;
      && u != "" && u[0] != '|' && u[0] != ')'
      && ReadPiece(u) == if DoubleQuantifier(s) then Bad else Good(HeadRe(raw, s), Encoded(raw, AfterFirst(s)) + tail)
  {
    var rest := s[1..];
    assert s[0] in s && forall c :: c in rest ==> c in s;
    EncodedHead(raw, s, tail);
    ReadOne(raw, s[0], Encoded(raw, rest) + tail);
    EncodedStart(raw, rest, tail);
    if StartsQuantified(rest) {
      assert rest[1..] == s[2..];
      EncodedStart(raw, rest[1..], tail);
    }
  }

  lemma {:induction false} ReadText(raw: bool, s: string, tail: string)
    requires ReadableChars(s) && !StartsQuantified(s) && !Quantified(tail)
    ensures ReadCat(Encoded(raw, s) + tail) ==
      match ReadCat(tail)
      case Bad => Bad
      case Good(r, rest) => match TextRe(raw, s, r) case None => Bad case Some(re) => Good(re, rest)
    decreases |s|
  {
    if s == "" {
      assert Encoded(raw, s) + tail == tail;
    } else {
      ReadHead(raw, s, tail);
      if !DoubleQuantifier(s) {
        var rest := AfterFirst(s);
        assert forall c :: c in rest ==> c in s;
        ReadText(raw, rest, tail);
      }
    }
  }

  /** Escaping leaves the separator alone. */
  lemma EscapeSep(host: string)
    ensures Escape(SEP + host) == SEP + Escape(host)
  {
    var s := SEP + host;
    assert s[1..] == "//" + host && s[1..][1..] == "/" + host && s[1..][1..][1..] == host;
    assert Escape("/" + host) == "/" + Escape(host) by { assert ("/" + host)[1..] == host; }
    assert Escape("//" + host) == "//" + Escape(host);
  }

  /** What follows the scheme. */
  function TailRe(host: string): Option<Re> {
    TextRe(false, SEP + host, PORT_RE)
  }

  function PatternRe(site: Site): Option<Re> {
    match TailRe(site.host)
    case None => None
    case Some(tail) =>
      match TextRe(true, site.scheme, tail)
      case None => None
      case Some(re) => Some(Cat(Start, re))
  }

  lemma ReadStart(body: string)
    requires !Quantified(body)
    ensures ReadCat("^" + body) == match ReadCat(body) case Bad => Bad case Good(re, rest) => Good(Cat(Start, re), rest)
  {
    var s := "^" + body;
    assert s[1..] == body;
    assert ReadPiece(s) == Good(Start, body);
  }

  lemma Regroup(a: string, b: string, c: string, d: string, e: string, f: string)
    ensures a + b + c + d + e + f == a + (b + ((c + d) + (e + f)))
  {
  }

  ghost predicate Readable(site: Site) {
    IsScheme(site.scheme) && ReadableChars(site.host)
  }

  lemma SchemeIsReadable(s: string)
    requires IsScheme(s)
    ensures ReadableChars(s) && !StartsQuantified(s)
  {
    assert s != "" ==> s[0] in s;
  }

  lemma SepIsReadable(host: string)
    requires ReadableChars(host)
    ensures ReadableChars(SEP + host) && !StartsQuantified(SEP + host)
  {
  }

  lemma ReadPattern(site: Site, more: string)
    requires Readable(site) && EndsPattern(more)
    ensures ReadCat(PatternOf(site) + more) == match PatternRe(site) case None => Bad case Some(re) => Good(re, more)
  {
    var port, tail := PORT + more, Encoded(false, SEP + site.host) + (PORT + more);
    ReadPort(more);
    SepIsReadable(site.host);
    ReadText(false, SEP + site.host, port);
    EncodedStart(false, SEP + site.host, port);
    SchemeIsReadable(site.scheme);
    ReadText(true, site.scheme, tail);
    EncodedStart(true, site.scheme, tail);
    EscapeSep(site.host);
    Regroup("^", site.scheme, SEP, Escape(site.host), PORT, more);
    assert PatternOf(site) + more == "^" + (site.scheme + tail);
    ReadStart(site.scheme + tail);
  }

  lemma PatternIsSelfContained(site: Site)
    requires Readable(site)
    ensures SelfContained(PatternOf(site))
    ensures ReadCat(PatternOf(site)) == match PatternRe(site) case None => Bad case Some(re) => Good(re, "")
  {
    var p := PatternOf(site);
    forall more {:trigger p + more} | EndsPattern(more)
      ensures ReadCat(p + more) == match PatternRe(site) case None => Bad case Some(re) => Good(re, more)
    {
      ReadPattern(site, more);
    }
    assert p + "" == p && EndsPattern("");
  }

  // ---- What a pattern matches ---------------------------------------------------------------------------------

  lemma {:induction false} PlainTextRe(raw: bool, s: string, r: Re)
    requires (forall c :: c in s ==> !IsQuantifier(c)) && (raw ==> '.' !in s)
    ensures TextRe(raw, s, r) == Some(Lits(s, r))
  {
    if s != "" {
      assert s[0] in s && (|s| > 1 ==> s[1] in s);
      PlainTextRe(raw, s[1..], r);
    }
  }

  lemma OptThenEnd(g: Re, t: string, i: nat, digit: char -> bool)
    requires i <= |t|
    ensures Matches(Cat(Opt(g), Cat(End, Empty)), t, i, |t|, digit) <==> i == |t| || Matches(g, t, i, |t|, digit)
  {
    forall k: nat | i <= k <= |t| ensures Matches(Cat(End, Empty), t, k, |t|, digit) <==> k == |t| {
      EndMatches(t, k, digit);
    }
    assert Matches(Cat(Opt(g), Cat(End, Empty)), t, i, |t|, digit) <==> Matches(Opt(g), t, i, |t|, digit);
  }

  lemma ThenEmpty(r: Re, t: string, i: nat, digit: char -> bool)
    requires i <= |t|
    ensures Matches(Cat(r, Empty), t, i, |t|, digit) <==> Matches(r, t, i, |t|, digit)
  {
    assert Matches(Empty, t, |t|, |t|, digit);
  }

  lemma PortMatches(t: string, i: nat, digit: char -> bool)
    requires i <= |t|
    ensures Matches(PORT_RE, t, i, |t|, digit) <==> PortEnd(t[i..], digit)
  {
    var digits := Cat(Plus(Digit), Empty);
    OptThenEnd(Cat(Lit(':'), digits), t, i, digit);
    LitThen(':', digits, t, i, digit);
    if i < |t| {
      ThenEmpty(Plus(Digit), t, i + 1, digit);
      DigitsMatch(t, i + 1, |t|, digit);
      NumericFrom(t, i + 1, digit);
      assert t[i..][0] == t[i] && t[i..][1..] == t[i + 1..];
    }
  }

  lemma LitThen(c: char, r: Re, t: string, i: nat, digit: char -> bool)
    requires i <= |t|
    ensures Matches(Cat(Lit(c), r), t, i, |t|, digit) <==> i < |t| && t[i] == c && Matches(r, t, i + 1, |t|, digit)
  {
    assert i < |t| && t[i] == c ==> Matches(Lit(c), t, i, i + 1, digit);
  }

  lemma EndMatches(t: string, k: nat, digit: char -> bool)
    requires k <= |t|
    ensures Matches(Cat(End, Empty), t, k, |t|, digit) <==> k == |t|
  {
    assert Matches(Empty, t, |t|, |t|, digit);
    if k == |t| {
      assert Matches(End, t, k, k, digit);
    }
  }

  lemma NumericFrom(t: string, i: nat, digit: char -> bool)
    requires i <= |t|
    ensures Numeric(t[i..], digit) <==> i < |t| && forall k :: i <= k < |t| ==> digit(t[k])
  {
    assert forall k :: i <= k < |t| ==> t[k] == t[i..][k - i];
  }

  lemma CharAt(base: string, u: string, k: nat, digit: char -> bool)
    requires k < |base|
    ensures WithPort(base, u, digit) ==> k < |u| && u[k] == base[k]
  {
    assert |base| <= |u| ==> u[..|base|][k] == u[k];
  }

  lemma Slices(t: string, i: nat, n: nat)
    requires i + n <= |t|
    ensures t[i..][..n] == t[i..i + n] && t[i..][n..] == t[i + n..]
  {
  }

  lemma LitsThen(lit: string, r: Re, t: string, i: nat, digit: char -> bool)
    requires i <= |t|
    requires i + |lit| <= |t| ==> (Matches(r, t, i + |lit|, |t|, digit) <==> PortEnd(t[i + |lit|..], digit))
    ensures Matches(Lits(lit, r), t, i, |t|, digit) <==> WithPort(lit, t[i..], digit)
  {
    LitsMatch(lit, r, t, i, |t|, digit);
    if i + |lit| <= |t| {
      Slices(t, i, |lit|);
    }
  }

  /** Literal text and an optional port, from `i` to the end. */
  lemma LitsThenPort(lit: string, t: string, i: nat, digit: char -> bool)
    requires i <= |t|
    ensures Matches(Lits(lit, PORT_RE), t, i, |t|, digit) <==> WithPort(lit, t[i..], digit)
  {
    if i + |lit| <= |t| {
      PortMatches(t, i + |lit|, digit);
    }
    LitsThen(lit, PORT_RE, t, i, digit);
  }

  lemma StartThen(re: Re, t: string, digit: char -> bool)
    ensures Matches(Cat(Start, re), t, 0, |t|, digit) <==> Matches(re, t, 0, |t|, digit)
  {
    assert Matches(Start, t, 0, 0, digit);
  }

  lemma AfterSep(scheme: string, host: string, t: string, digit: char -> bool)
    requires WithPort(scheme + SEP + host, t, digit)
    ensures scheme + SEP <= t && |t| >= |scheme| + 3 + |host|
    ensures t[|scheme|] == ':' && t[|scheme| + 1] == '/' && t[|scheme| + 2] == '/'
    ensures WithPort(host, t[|scheme| + 3..], digit)
  {
    var base, n := scheme + SEP + host, |scheme| + 3;
    Slices(t, n, |host|);
    assert base[n..] == host && t[..|base|][n..] == t[n..|base|];
    assert base[..n] == scheme + SEP && t[..|base|][..n] == t[..n];
    CharAt(base, t, n - 3, digit);
    CharAt(base, t, n - 2, digit);
    CharAt(base, t, n - 1, digit);
  }

  /** A text stands in front of an optional port in one way only. */
  lemma NoColonTwice(a: string, b: string, u: string, digit: char -> bool)
    requires ':' !in a && |b| < |a| && WithPort(a, u, digit)
    ensures !WithPort(b, u, digit)
  {
    CharAt(a, u, |b|, digit);
    assert u[|b|..][0] == a[|b|] && a[|b|] in a;
  }

  lemma {:induction false} LitsConcat(a: string, b: string, r: Re)
    ensures Lits(a, Lits(b, r)) == Lits(a + b, r)
  {
    if a == "" {
      assert a + b == b;
    } else {
      LitsConcat(a[1..], b, r);
      assert (a + b)[1..] == a[1..] + b;
    }
  }

  lemma PlainSchemeMatches(site: Site, t: string, digit: char -> bool)
    requires Readable(site) && PlainScheme(site.scheme)
    ensures PieceMatches(PatternOf(site), t, digit) <==>
      && TailRe(site.host).Some? && site.scheme <= t
      && Matches(TailRe(site.host).value, t, |site.scheme|, |t|, digit)
  {
    if TailRe(site.host).Some? {
      var tail := TailRe(site.host).value;
      PlainSchemeThen(site, "", tail);
      assert site.scheme + "" == site.scheme;
      FrontThen(site, site.scheme, tail, t, digit);
    } else {
      PatternIsSelfContained(site);
    }
  }

  lemma PlainTail(host: string)
    requires PlainHost(host)
    ensures ReadableChars(host) && TailRe(host) == Some(Lits(SEP + host, PORT_RE))
  {
    assert forall c :: c in SEP + host ==> c in SEP || c in host;
    PlainTextRe(false, SEP + host, PORT_RE);
  }

  lemma PortAfter(site: Site, base: string, t: string, digit: char -> bool)
    requires Readable(site) && PatternRe(site) == Some(Cat(Start, Lits(base, PORT_RE)))
    ensures PieceMatches(PatternOf(site), t, digit) <==> WithPort(base, t, digit)
  {
    Started(site, Lits(base, PORT_RE), t, digit);
    LitsThenPort(base, t, 0, digit);
    assert t[0..] == t;
  }

  /** With a plain scheme the pattern matches the site with or without a numeric port, and nothing else. */
  lemma PlainPatternMatches(site: Site, t: string, digit: char -> bool)
    requires IsScheme(site.scheme) && PlainHost(site.host) && !site.bracketed && PlainScheme(site.scheme)
    ensures PieceMatches(PatternOf(site), t, digit) <==> IsAt(t, site, digit)
  {
    var base := Written(site);
    PlainTail(site.host);
    PlainSchemeThen(site, SEP + site.host, PORT_RE);
    assert site.scheme + (SEP + site.host) == base;
    PortAfter(site, base, t, digit);
  }

  // ---- Wildcards ----------------------------------------------------------------------------------------------

  /** A wildcard entry: one star, with plain text on both sides, either of which may be empty. */
  predicate Wild(host: string, pre: string, post: string) {
    host == pre + "*" + post && PlainHost(pre) && PlainHost(post)
  }

  ghost predicate AllOf(x: char, t: string, i: nat, j: nat) {
    i <= j <= |t| && forall k :: i <= k < j ==> t[k] == x
  }

  lemma StarThenPort(x: char, post: string, t: string, i: nat, digit: char -> bool)
    requires i <= |t|
    ensures Matches(Cat(Star(Lit(x)), Lits(post, PORT_RE)), t, i, |t|, digit) <==>
      exists j: nat :: AllOf(x, t, i, j) && WithPort(post, t[j..], digit)
  {
    forall j: nat | i <= j <= |t|
      ensures Matches(Star(Lit(x)), t, i, j, digit) <==> AllOf(x, t, i, j)
      ensures Matches(Lits(post, PORT_RE), t, j, |t|, digit) <==> WithPort(post, t[j..], digit)
    {
      StarMatches(x, t, i, j, digit);
      LitsThenPort(post, t, j, digit);
    }
  }

  lemma PlainStep(c: char, next: string, r: Re)
    requires !StartsQuantified(next)
    ensures TextRe(false, [c] + next, r) == match TextRe(false, next, r) case None => None case Some(b) => Some(Cat(Lit(c), b))
  {
    var s := [c] + next;
    assert s[1..] == next && AfterFirst(s) == next;
  }

  lemma StarStep(x: char, post: string, r: Re)
    requires PlainHost(post)
    ensures TextRe(false, [x] + ("*" + post), r) == Some(Cat(Star(Lit(x)), Lits(post, r)))
  {
    var s := [x] + ("*" + post);
    assert s[1] == '*' && s[2..] == post;
    assert post != "" ==> s[2] == post[0] && post[0] in post;
    PlainTextRe(false, post, r);
  }

  lemma {:induction false} StarTextRe(front: string, x: char, post: string, r: Re)
    requires PlainHost(front) && PlainHost([x]) && PlainHost(post)
    ensures TextRe(false, front + ([x] + ("*" + post)), r) == Some(Lits(front, Cat(Star(Lit(x)), Lits(post, r))))
  {
    var tail := [x] + ("*" + post);
    assert x in [x];
    if front == "" {
      assert front + tail == tail;
      StarStep(x, post, r);
    } else {
      var next := front[1..] + tail;
      assert front + tail == [front[0]] + next;
      assert next[0] == (if |front| > 1 then front[1] else x) && forall c :: c in front[1..] ==> c in front;
      assert |front| > 1 ==> front[1] in front;
      StarTextRe(front[1..], x, post, r);
      PlainStep(front[0], next, r);
    }
  }

  /** `front`, then `x` repeated up to `j`, then what stands behind the star. */
  ghost predicate WildFits(front: string, x: char, post: string, t: string, j: nat, digit: char -> bool) {
    front <= t && AllOf(x, t, |front|, j) && WithPort(post, t[j..], digit)
  }

  /**
   A wildcard entry is read as: any number, zero included, of the character `x` before the star, which is a
   slash if the star comes first; then what stands behind the star.
   */
  lemma WildPatternMatches(site: Site, pre: string, post: string, front: string, x: char, t: string, digit: char -> bool)
    requires IsScheme(site.scheme) && PlainScheme(site.scheme) && Wild(site.host, pre, post) && SEP + pre == front + [x]
    ensures PieceMatches(PatternOf(site), t, digit)
       <==> exists j: nat :: WildFits(site.scheme + front, x, post, t, j, digit)
  {
    WildIsRead(site, pre, post, front, x);
    WildFrom(site, site.scheme + front, x, post, t, digit);
  }

  lemma WildFrom(site: Site, front: string, x: char, post: string, t: string, digit: char -> bool)
    requires Readable(site) && PatternRe(site) == Some(Cat(Start, Lits(front, Cat(Star(Lit(x)), Lits(post, PORT_RE)))))
    ensures PieceMatches(PatternOf(site), t, digit) <==> exists j: nat :: WildFits(front, x, post, t, j, digit)
  {
    FrontThen(site, front, Cat(Star(Lit(x)), Lits(post, PORT_RE)), t, digit);
    if front <= t {
      StarThenPort(x, post, t, |front|, digit);
      forall j: nat ensures WildFits(front, x, post, t, j, digit)
        <==> AllOf(x, t, |front|, j) && WithPort(post, t[j..], digit) {}
    }
  }

  lemma FrontThen(site: Site, front: string, tail: Re, t: string, digit: char -> bool)
    requires Readable(site) && PatternRe(site) == Some(Cat(Start, Lits(front, tail)))
    ensures PieceMatches(PatternOf(site), t, digit) <==> front <= t && Matches(tail, t, |front|, |t|, digit)
  {
    Started(site, Lits(front, tail), t, digit);
    LitsMatch(front, tail, t, 0, |t|, digit);
    assert 0 + |front| <= |t| && t[0..0 + |front|] == front <==> front <= t;
  }

  lemma Started(site: Site, re: Re, t: string, digit: char -> bool)
    requires Readable(site) && PatternRe(site) == Some(Cat(Start, re))
    ensures PieceMatches(PatternOf(site), t, digit) <==> Matches(re, t, 0, |t|, digit)
  {
    PatternIsSelfContained(site);
    StartThen(re, t, digit);
  }

  lemma WildIsRead(site: Site, pre: string, post: string, front: string, x: char)
    requires IsScheme(site.scheme) && PlainScheme(site.scheme) && Wild(site.host, pre, post) && SEP + pre == front + [x]
    ensures Readable(site)
    ensures PatternRe(site) == Some(Cat(Start, Lits(site.scheme + front, Cat(Star(Lit(x)), Lits(post, PORT_RE)))))
  {
    WildTail(pre, post, front, x);
    PlainSchemeThen(site, front, Cat(Star(Lit(x)), Lits(post, PORT_RE)));
    WildIsReadable(site.host, pre, post);
  }

  lemma WildIsReadable(host: string, pre: string, post: string)
    requires Wild(host, pre, post)
    ensures ReadableChars(host)
  {
    assert forall c :: c in host ==> c in pre || c == '*' || c in post;
  }

  lemma WildTail(pre: string, post: string, front: string, x: char)
    requires PlainHost(pre) && PlainHost(post) && SEP + pre == front + [x]
    ensures TailRe(pre + "*" + post) == Some(Lits(front, Cat(Star(Lit(x)), Lits(post, PORT_RE))))
  {
    FrontIsPlain(pre, front, x);
    StarTextRe(front, x, post, PORT_RE);
    MoveStar(SEP, pre, front, x, post);
  }

  lemma FrontIsPlain(pre: string, front: string, x: char)
    requires PlainHost(pre) && SEP + pre == front + [x]
    ensures PlainHost(front) && PlainHost([x])
  {
    var before := front + [x];
    assert forall c :: c in before ==> c in SEP || c in pre;
    assert x in before && forall c :: c in front ==> c in before;
  }

  lemma MoveStar(sep: string, pre: string, front: string, x: char, post: string)
    requires sep + pre == front + [x]
    ensures front + ([x] + ("*" + post)) == sep + (pre + "*" + post)
  {
    assert front + ([x] + ("*" + post)) == (front + [x]) + ("*" + post);
  }

  lemma PlainSchemeThen(site: Site, front: string, tail: Re)
    requires PlainScheme(site.scheme) && IsScheme(site.scheme) && TailRe(site.host) == Some(Lits(front, tail))
    ensures PatternRe(site) == Some(Cat(Start, Lits(site.scheme + front, tail)))
  {
    assert '*' !in site.scheme;
    PlainTextRe(true, site.scheme, Lits(front, tail));
    LitsConcat(site.scheme, front, tail);
  }

  /**
   With some text in place of the star the wildcard entry accepts exactly the repetitions of the character
   before the star, among them no text at all.
   */
  lemma WildAdmits(site: Site, pre: string, post: string, front: string, x: char, sub: string, t: string, digit: char -> bool)
    requires IsScheme(site.scheme) && PlainScheme(site.scheme) && Wild(site.host, pre, post) && SEP + pre == front + [x]
    requires ':' !in pre && ':' !in post && ':' !in sub && WithPort(site.scheme + SEP + (pre + sub + post), t, digit)
    ensures PieceMatches(PatternOf(site), t, digit) <==> forall c :: c in sub ==> c == x
  {
    var whole := site.scheme + front;
    SamePlace(site.scheme, SEP, pre, front, x, sub, post);
    NoColonBefore(pre, front, x);
    WildPatternMatches(site, pre, post, front, x, t, digit);
    PartsFrom(whole, x, sub, post, t, digit);
    if forall c :: c in sub ==> c == x {
      FitsRepeated(whole, x, sub, post, t, digit);
    }
    if j: nat :| WildFits(whole, x, post, t, j, digit) {
      FitsReachFar(whole, x, sub, post, t, j, digit);
    }
  }

  lemma SamePlace(scheme: string, sep: string, pre: string, front: string, x: char, sub: string, post: string)
    requires sep + pre == front + [x]
    ensures scheme + front + ([x] + sub + post) == scheme + sep + (pre + sub + post)
  {
    assert scheme + front + ([x] + sub + post) == scheme + (front + [x]) + (sub + post);
    assert scheme + sep + (pre + sub + post) == scheme + (sep + pre) + (sub + post);
  }

  lemma NoColonBefore(pre: string, front: string, x: char)
    requires SEP + pre == front + [x] && ':' !in pre
    ensures x != ':'
  {
    assert x == (front + [x])[|front|] == (SEP + pre)[|SEP + pre| - 1];
    if pre != "" {
      assert x == pre[|pre| - 1];
    }
  }

  /** Where the parts of the text are. */
  lemma PartsFrom(front: string, x: char, sub: string, post: string, t: string, digit: char -> bool)
    requires WithPort(front + ([x] + sub + post), t, digit)
    ensures front <= t && WithPort([x] + sub + post, t[|front|..], digit)
    ensures |front| + 1 + |sub| <= |t| && t[|front|] == x && forall k :: 0 <= k < |sub| ==> t[|front| + 1 + k] == sub[k]
    ensures WithPort(post, t[|front| + 1 + |sub|..], digit)
  {
    var rest, n := [x] + sub + post, |front|;
    WithPortFrom(front + rest, t, n, digit);
    assert (front + rest)[n..] == rest && (front + rest)[..n] == front;
    assert front == t[..|front + rest|][..n];
    WithPortFrom(rest, t[n..], 1 + |sub|, digit);
    assert rest[1 + |sub|..] == post && t[n..][1 + |sub|..] == t[n + 1 + |sub|..];
    forall k | 0 <= k < |rest| ensures t[n + k] == rest[k] {
      CharAt(rest, t[n..], k, digit);
    }
    assert t[n + 0] == rest[0];
    forall k | 0 <= k < |sub| ensures t[n + 1 + k] == sub[k] {
      assert t[n + (1 + k)] == rest[1 + k] == sub[k];
    }
  }

  lemma FitsRepeated(front: string, x: char, sub: string, post: string, t: string, digit: char -> bool)
    requires WithPort(front + ([x] + sub + post), t, digit) && forall c :: c in sub ==> c == x
    ensures WildFits(front, x, post, t, |front| + 1 + |sub|, digit)
  {
    PartsFrom(front, x, sub, post, t, digit);
    forall k | |front| < k < |front| + 1 + |sub| ensures t[k] == x {
      var i := k - |front| - 1;
      assert t[|front| + 1 + i] == sub[i] && sub[i] in sub;
    }
  }

  lemma FitsReachFar(front: string, x: char, sub: string, post: string, t: string, j: nat, digit: char -> bool)
    requires WildFits(front, x, post, t, j, digit) && WithPort(front + ([x] + sub + post), t, digit)
    requires x != ':' && ':' !in sub && ':' !in post
    ensures forall c :: c in sub ==> c == x
  {
    var n := |front|;
    PartsFrom(front, x, sub, post, t, digit);
    assert t[n..][j - n..] == t[j..];
    PostComesLast([x] + sub, post, t[n..], j - n, digit);
    forall k | 0 <= k < |sub| ensures sub[k] == x {
      assert t[n + 1 + k] == sub[k];
    }
  }

  /** Without colons, a text that ends with `post` and an optional port holds `post` at its end only. */
  lemma PostComesLast(front: string, post: string, u: string, cut: nat, digit: char -> bool)
    requires ':' !in front && ':' !in post && cut <= |u|
    requires WithPort(front + post, u, digit) && WithPort(post, u[cut..], digit)
    ensures cut >= |front|
  {
    if cut < |front| {
      assert (front + post)[cut..] == front[cut..] + post;
      WithPortFrom(front + post, u, cut, digit);
      NoColonTwice(front[cut..] + post, post, u[cut..], digit);
    }
  }

  lemma WithPortFrom(base: string, u: string, k: nat, digit: char -> bool)
    requires k <= |base| && WithPort(base, u, digit)
    ensures WithPort(base[k..], u[k..], digit)
  {
    assert u[k..][..|base| - k] == u[..|base|][k..];
    assert u[k..][|base| - k..] == u[|base|..];
  }

  /** So an entry with the star in front accepts no subdomain, with or without a port. */
  lemma SubdomainRefused(site: Site, post: string, sub: string, t: string, digit: char -> bool)
    requires IsScheme(site.scheme) && PlainScheme(site.scheme) && Wild(site.host, "", post)
    requires sub != "" && ':' !in sub && '/' !in sub && ':' !in post
    requires WithPort(site.scheme + SEP + (sub + post), t, digit)
    ensures !PieceMatches(PatternOf(site), t, digit)
  {
    assert "" + sub + post == sub + post && SEP + "" == ":/" + ['/'];
    WildAdmits(site, "", post, ":/", '/', sub, t, digit);
    assert sub[0] in sub;
  }

  // ---- Schemes with a dot or a plus --------------------------------------------------------------------------

  /** A text that is also matched: once what may be repeated, and '!' for every unescaped dot. */
  function Lure(raw: bool, s: string): string {
    if s == "" then ""
    else (if IsQuantifier(s[0]) then "" else if raw && s[0] == '.' then "!" else [s[0]]) + Lure(raw, s[1..])
  }

  lemma {:induction false} LureChars(s: string)
    ensures '.' in s ==> '!' in Lure(true, s)
    ensures forall c :: c in Lure(true, s) ==> c == '!' || c in s
  {
    if s != "" {
      LureChars(s[1..]);
      assert s == [s[0]] + s[1..];
    }
  }

  lemma LureSkips(raw: bool, s: string)
    requires StartsQuantified(s)
    ensures Lure(raw, s) == Lure(raw, s[1..])
  {
  }

  lemma LureHead(raw: bool, s: string)
    requires s != "" && !StartsQuantified(s)
    ensures Lure(raw, s) == [if raw && s[0] == '.' then '!' else s[0]] + Lure(raw, AfterFirst(s))
  {
    var rest := s[1..];
    assert Lure(raw, s) == [if raw && s[0] == '.' then '!' else s[0]] + Lure(raw, rest);
    if StartsQuantified(rest) {
      LureSkips(raw, rest);
      assert rest[1..] == s[2..];
    }
  }

  ghost predicate Holds(t: string, i: nat, w: string) {
    i + |w| <= |t| && t[i..i + |w|] == w
  }

  lemma HoldsTail(t: string, i: nat, c: char, w: string)
    requires Holds(t, i, [c] + w)
    ensures t[i] == c && Holds(t, i + 1, w)
  {
    assert t[i..i + 1 + |w|][0] == c && t[i..i + 1 + |w|][1..] == w;
  }

  lemma TextReHead(raw: bool, s: string, r: Re)
    requires s != "" && TextRe(raw, s, r).Some?
    ensures TextRe(raw, AfterFirst(s), r).Some?
    ensures TextRe(raw, s, r).value == Cat(HeadRe(raw, s), TextRe(raw, AfterFirst(s), r).value)
    ensures !StartsQuantified(AfterFirst(s))
  {
  }

  lemma SplitCat(a: Re, b: Re, t: string, i: nat, j: nat, digit: char -> bool) returns (m: nat)
    requires i <= j <= |t| && Matches(Cat(a, b), t, i, j, digit)
    ensures i <= m <= j && Matches(a, t, i, m, digit) && Matches(b, t, m, j, digit)
  {
    m :| i <= m <= j && Matches(a, t, i, m, digit) && Matches(b, t, m, j, digit);
  }

  lemma JoinCat(a: Re, b: Re, t: string, i: nat, m: nat, j: nat, digit: char -> bool)
    requires i <= m <= j <= |t| && Matches(a, t, i, m, digit) && Matches(b, t, m, j, digit)
    ensures Matches(Cat(a, b), t, i, j, digit)
  {
  }

  lemma HeadMatches(raw: bool, s: string, t: string, i: nat, digit: char -> bool)
    requires s != "" && i < |t| && t[i] == if raw && s[0] == '.' then '!' else s[0]
    ensures Matches(HeadRe(raw, s), t, i, i + 1, digit)
  {
    assert Matches(AtomRe(raw, s[0]), t, i, i + 1, digit);
  }

  lemma {:induction false} LureMatches(raw: bool, s: string, r: Re, t: string, i: nat, j: nat, digit: char -> bool)
    requires !StartsQuantified(s) && TextRe(raw, s, r).Some? && Holds(t, i, Lure(raw, s))
    requires i + |Lure(raw, s)| <= j <= |t| && Matches(r, t, i + |Lure(raw, s)|, j, digit)
    ensures Matches(TextRe(raw, s, r).value, t, i, j, digit)
    decreases |s|
  {
    if s != "" {
      var rest := AfterFirst(s);
      LureHead(raw, s);
      HoldsTail(t, i, if raw && s[0] == '.' then '!' else s[0], Lure(raw, rest));
      TextReHead(raw, s, r);
      LureMatches(raw, rest, r, t, i + 1, j, digit);
      HeadMatches(raw, s, t, i, digit);
      JoinCat(HeadRe(raw, s), TextRe(raw, rest, r).value, t, i, i + 1, j, digit);
    }
  }

  lemma HeadHolds(raw: bool, s: string, t: string, i: nat, m: nat, digit: char -> bool)
    requires s != "" && (raw ==> '.' !in s) && i <= m <= |t| && Matches(HeadRe(raw, s), t, i, m, digit)
    ensures forall x :: x in t[i..m] ==> x == s[0]
  {
    assert s[0] in s;
    PlusMatches(s[0], t, i, m, digit);
    StarMatches(s[0], t, i, m, digit);
    assert HeadRe(raw, s) in {Lit(s[0]), Plus(Lit(s[0])), Star(Lit(s[0]))};
  }

  lemma TwoParts(t: string, i: nat, m: nat, k: nat)
    requires i <= m <= k <= |t|
    ensures forall x :: x in t[i..k] ==> x in t[i..m] || x in t[m..k]
  {
    assert t[i..k] == t[i..m] + t[m..k];
  }

  /** Without unescaped dots, what is matched holds characters of the text only, and none of its quantifiers. */
  lemma {:induction false} TextMatched(raw: bool, s: string, r: Re, t: string, i: nat, j: nat, digit: char -> bool) returns (k: nat)
    requires (raw ==> '.' !in s) && !StartsQuantified(s)
    requires i <= j <= |t| && TextRe(raw, s, r).Some? && Matches(TextRe(raw, s, r).value, t, i, j, digit)
    ensures i <= k <= j && (forall x :: x in t[i..k] ==> x in s && !IsQuantifier(x)) && Matches(r, t, k, j, digit)
    decreases |s|
  {
    if s == "" {
      k := i;
    } else {
      var rest := AfterFirst(s);
      TextReHead(raw, s, r);
      var m := SplitCat(HeadRe(raw, s), TextRe(raw, rest, r).value, t, i, j, digit);
      HeadHolds(raw, s, t, i, m, digit);
      assert forall c :: c in rest ==> c in s;
      k := TextMatched(raw, rest, r, t, m, j, digit);
      TwoParts(t, i, m, k);
      assert s[0] in s;
    }
  }

  // ---- Exactly when the pattern is exact -----------------------------------------------------------------------

  /** Host names hold plain characters, dots, stars and plus signs; no other character with a meaning in patterns. */
  ghost predicate ReadableHosts(parse: Parser, origins: seq<string>) {
    forall site :: Configured(parse, origins, site) ==> ReadableChars(site.host)
  }

  ghost predicate PlainSchemes(parse: Parser, origins: seq<string>) {
    forall site :: Configured(parse, origins, site) ==> PlainScheme(site.scheme)
  }

  ghost predicate PlainSites(parse: Parser, origins: seq<string>) {
    forall site :: Configured(parse, origins, site) ==> PlainScheme(site.scheme) && !site.bracketed && PlainHost(site.host)
  }

  lemma {:induction false} PatternsMeaning(parse: Parser, origins: seq<string>)
    ensures forall p :: p in Patterns(parse, origins) <==> exists site :: Configured(parse, origins, site) && p == PatternOf(site)
  {
    if origins != [] {
      var rest, o := origins[..|origins| - 1], origins[|origins| - 1];
      PatternsMeaning(parse, rest);
      assert forall x :: x in origins <==> x in rest || x == o by { assert origins == rest + [o]; }
      assert forall site :: Configured(parse, origins, site) <==> Configured(parse, rest, site) || SiteOf(parse, o) == Some(site);
    }
  }

  /** A site is configured by an entry other than "" and "*" that parses to its scheme and host name, neither missing. */
  lemma ConfiguredExactly(parse: Parser, origins: seq<string>, site: Site)
    ensures Configured(parse, origins, site) <==>
      && site.scheme != "" && site.host != ""
      && exists o :: o in origins && o != "" && o != "*" && parse(o).Some?
           && parse(o).value.scheme == site.scheme && parse(o).value.hostname == site.host
           && parse(o).value.bracketed == site.bracketed
  {
    if o :| o in origins && o != "" && o != "*" && parse(o).Some? && parse(o).value.scheme == site.scheme
            && parse(o).value.hostname == site.host && parse(o).value.bracketed == site.bracketed {
      assert site.scheme != "" && site.host != "" ==> SiteOf(parse, o) == Some(site);
    }
  }

  /** Nothing is built exactly when nothing is configured. */
  lemma BuiltMeansConfigured(parse: Parser, origins: seq<string>)
    ensures Built(parse, origins).Some? <==> exists site :: Configured(parse, origins, site)
  {
    PatternsMeaning(parse, origins);
    var ps := Patterns(parse, origins);
    if ps != [] {
      assert ps[0] in ps;
    }
    if site :| Configured(parse, origins, site) {
      assert PatternOf(site) in ps;
    }
  }

  ghost predicate ProperSite(site: Site) {
    && IsScheme(site.scheme) && site.scheme != "" && ':' !in site.scheme && '!' !in site.scheme
    && site.host != "" && '/' !in site.host && (!site.bracketed ==> ':' !in site.host)
  }

  lemma SiteIsProper(parse: Parser, origins: seq<string>, site: Site)
    requires Proper(parse) && Configured(parse, origins, site)
    ensures ProperSite(site)
  {
  }

  lemma ColonBeyond(a: string, t: string, k: nat)
    requires a <= t && ':' !in a && k < |t| && t[k] == ':'
    ensures k >= |a|
  {
    assert forall i :: 0 <= i < |a| ==> t[i] == a[i];
  }

  lemma SameScheme(a: string, b: string, t: string)
    requires ':' !in a && ':' !in b && a + ":" <= t && b + ":" <= t
    ensures a == b
  {
    assert t[|a|] == (a + ":")[|a|] && t[|b|] == (b + ":")[|b|];
    assert a <= t by { assert a <= a + ":"; }
    assert b <= t by { assert b <= b + ":"; }
    ColonBeyond(a, t, |b|);
    ColonBeyond(b, t, |a|);
  }

  /** What is at a site starts with its scheme and the separator. */
  lemma AtStartsWithScheme(site: Site, t: string, digit: char -> bool)
    requires IsAt(t, site, digit)
    ensures site.scheme + ":" <= t && |t| > |site.scheme| + 2 && t[|site.scheme| + 2] == '/'
  {
    AfterSep(site.scheme, if site.bracketed then "[" + site.host + "]" else site.host, t, digit);
    assert Written(site) <= t;
    assert site.scheme + ":" <= Written(site);
  }

  /** The built pattern matches what the pattern of some configured site matches, if all of them can be read. */
  lemma BuiltMatches(parse: Parser, origins: seq<string>, t: string, digit: char -> bool)
    requires Proper(parse) && ReadableHosts(parse, origins) && Built(parse, origins).Some?
    ensures FullMatch(Built(parse, origins).value, t, digit) <==>
      && (forall site :: Configured(parse, origins, site) ==> PatternRe(site).Some?)
      && (exists site :: Configured(parse, origins, site) && PieceMatches(PatternOf(site), t, digit))
  {
    var ps := SortedSet(StrLt, Patterns(parse, origins));
    StrLtIsTotalOrder();
    SortedSetAscending(StrLt, Patterns(parse, origins));
    PatternsMeaning(parse, origins);
    assert Patterns(parse, origins)[0] in ps;
    forall site | Configured(parse, origins, site)
      ensures PatternOf(site) in ps && SelfContained(PatternOf(site))
      ensures ReadCat(PatternOf(site)).Good? <==> PatternRe(site).Some?
    {
      SiteIsProper(parse, origins, site);
      PatternIsSelfContained(site);
    }
    JoinMatches(ps, t, digit);
  }

  lemma PlainIsExact(parse: Parser, origins: seq<string>, digit: char -> bool)
    requires Proper(parse) && ReadableHosts(parse, origins) && Built(parse, origins).Some? && PlainSites(parse, origins)
    ensures Exact(parse, origins, digit)
  {
    forall t ensures FullMatch(Built(parse, origins).value, t, digit) <==> Wanted(parse, origins, t, digit) {
      BuiltMatches(parse, origins, t, digit);
      forall site | Configured(parse, origins, site)
        ensures PatternRe(site).Some? && (PieceMatches(PatternOf(site), t, digit) <==> IsAt(t, site, digit))
      {
        SiteIsProper(parse, origins, site);
        PlainPatternMatches(site, t, digit);
        PlainIsRead(site);
      }
    }
  }

  lemma PlainIsRead(site: Site)
    requires PlainScheme(site.scheme) && IsScheme(site.scheme) && PlainHost(site.host)
    ensures PatternRe(site).Some?
  {
    PlainTail(site.host);
    assert '*' !in site.scheme;
    PlainTextRe(true, site.scheme, TailRe(site.host).value);
  }

  // A dot in a scheme.

  function LureOf(site: Site): string {
    Lure(true, site.scheme) + Lure(false, SEP + site.host)
  }

  lemma LureOfSep(host: string)
    ensures SEP <= Lure(false, SEP + host)
  {
    var s := SEP + host;
    assert s[1..] == "//" + host && s[1..][1..] == "/" + host && s[1..][1..][1..] == host;
    assert Lure(false, "/" + host) == "/" + Lure(false, host) by { assert ("/" + host)[1..] == host; }
    assert Lure(false, "//" + host) == "//" + Lure(false, host);
    assert Lure(false, s) == ":" + ("//" + Lure(false, host));
  }

  lemma LureIsMatched(site: Site, digit: char -> bool)
    requires Readable(site) && PatternRe(site).Some?
    ensures PieceMatches(PatternOf(site), LureOf(site), digit)
  {
    var lure, t, tail := Lure(true, site.scheme), LureOf(site), TailRe(site.host).value;
    SepIsReadable(site.host);
    SchemeIsReadable(site.scheme);
    PortMatches(t, |t|, digit);
    HoldsBoth(lure, Lure(false, SEP + site.host));
    LureMatches(false, SEP + site.host, PORT_RE, t, |lure|, |t|, digit);
    LureMatches(true, site.scheme, tail, t, 0, |t|, digit);
    PatternIsSelfContained(site);
    StartThen(TextRe(true, site.scheme, tail).value, t, digit);
  }

  lemma HoldsBoth(v: string, w: string)
    ensures Holds(v + w, 0, v) && Holds(v + w, |v|, w)
  {
  }

  /** A dot in a scheme lets in a text that nothing configured asks for. */
  lemma DotLetsIn(parse: Parser, origins: seq<string>, site: Site, digit: char -> bool)
    requires Proper(parse) && Configured(parse, origins, site) && '.' in site.scheme
    ensures !Wanted(parse, origins, LureOf(site), digit)
  {
    SiteIsProper(parse, origins, site);
    LureChars(site.scheme);
    LureOfSep(site.host);
    var t, lure := LureOf(site), Lure(true, site.scheme);
    assert lure + ":" <= t by { assert t == lure + Lure(false, SEP + site.host); }
    forall other | Configured(parse, origins, other) && IsAt(t, other, digit) ensures false {
      SiteIsProper(parse, origins, other);
      AtStartsWithScheme(other, t, digit);
      SameScheme(lure, other.scheme, t);
    }
  }

  // A plus in a scheme.

  lemma TailStartsAtColon(host: string, t: string, k: nat, digit: char -> bool)
    requires k <= |t| && TailRe(host).Some? && Matches(TailRe(host).value, t, k, |t|, digit)
    ensures k < |t| && t[k] == ':'
  {
    TextReHead(false, SEP + host, PORT_RE);
    LitThen(':', TextRe(false, AfterFirst(SEP + host), PORT_RE).value, t, k, digit);
  }

  /** A plus in a scheme keeps the configured site itself out. */
  lemma PlusKeepsOut(site: Site, other: Site, digit: char -> bool)
    requires ProperSite(site) && ProperSite(other) && Readable(other)
    requires '+' in site.scheme && '.' !in other.scheme
    ensures !PieceMatches(PatternOf(other), Written(site), digit)
  {
    var t := Written(site);
    PatternIsSelfContained(other);
    if PieceMatches(PatternOf(other), t, digit) {
      var tail := TailRe(other.host).value;
      SchemeIsReadable(other.scheme);
      StartThen(TextRe(true, other.scheme, tail).value, t, digit);
      var k := TextMatched(true, other.scheme, tail, t, 0, |t|, digit);
      TailStartsAtColon(other.host, t, k, digit);
      PlusComesFirst(site, t, k);
    }
  }

  lemma PlusComesFirst(site: Site, t: string, k: nat)
    requires site.scheme <= t && '+' in site.scheme && ':' !in site.scheme && k < |t| && t[k] == ':'
    ensures '+' in t[0..k]
  {
    ColonBeyond(site.scheme, t, k);
    var i :| 0 <= i < |site.scheme| && site.scheme[i] == '+';
    assert t[0..k][i] == '+';
  }

  lemma OwnOriginMatched(parse: Parser, origins: seq<string>, site: Site, digit: char -> bool)
    requires Built(parse, origins).Some? && Exact(parse, origins, digit) && Configured(parse, origins, site)
    ensures FullMatch(Built(parse, origins).value, Written(site), digit)
  {
    assert Written(site)[|Written(site)|..] == "";
    assert IsAt(Written(site), site, digit);
  }

  lemma ExactMeansNoDots(parse: Parser, origins: seq<string>, site: Site, digit: char -> bool)
    requires Proper(parse) && ReadableHosts(parse, origins) && Built(parse, origins).Some? && Exact(parse, origins, digit)
    requires Configured(parse, origins, site)
    ensures '.' !in site.scheme
  {
    OwnOriginMatched(parse, origins, site, digit);
    BuiltMatches(parse, origins, Written(site), digit);
    if '.' in site.scheme {
      SiteIsProper(parse, origins, site);
      LureIsMatched(site, digit);
      BuiltMatches(parse, origins, LureOf(site), digit);
      DotLetsIn(parse, origins, site, digit);
    }
  }

  lemma ExactMeansNoPlus(parse: Parser, origins: seq<string>, site: Site, digit: char -> bool)
    requires Proper(parse) && ReadableHosts(parse, origins) && Built(parse, origins).Some? && Exact(parse, origins, digit)
    requires Configured(parse, origins, site)
    ensures '+' !in site.scheme
  {
    OwnOriginMatched(parse, origins, site, digit);
    BuiltMatches(parse, origins, Written(site), digit);
    var other :| Configured(parse, origins, other) && PieceMatches(PatternOf(other), Written(site), digit);
    SiteIsProper(parse, origins, site);
    SiteIsProper(parse, origins, other);
    ExactMeansNoDots(parse, origins, other, digit);
    if '+' in site.scheme {
      PlusKeepsOut(site, other, digit);
    }
  }

  lemma ExactMeansPlainSchemes(parse: Parser, origins: seq<string>, digit: char -> bool)
    requires Proper(parse) && ReadableHosts(parse, origins) && Built(parse, origins).Some? && Exact(parse, origins, digit)
    ensures PlainSchemes(parse, origins)
  {
    forall site | Configured(parse, origins, site) ensures PlainScheme(site.scheme) {
      ExactMeansNoDots(parse, origins, site, digit);
      ExactMeansNoPlus(parse, origins, site, digit);
    }
  }

  // Brackets and quantifiers.

  /** Between the colon after the scheme and `b`, where a star, a plus or a bracket stands, there is no other colon. */
  ghost predicate Foreign(scheme: string, t: string, b: nat) {
    && scheme + ":" <= t && |scheme| < b < |t| && (IsQuantifier(t[b]) || t[b] == '[')
    && forall i :: |scheme| < i <= b ==> t[i] != ':'
  }

  lemma AfterColon(host: string, t: string, n: nat, digit: char -> bool)
    requires n <= |t| && TailRe(host).Some? && Matches(TailRe(host).value, t, n, |t|, digit)
    ensures n < |t| && TextRe(false, "//" + host, PORT_RE).Some?
    ensures Matches(TextRe(false, "//" + host, PORT_RE).value, t, n + 1, |t|, digit)
  {
    var rest := "//" + host;
    assert (SEP + host)[1..] == rest;
    TextReHead(false, SEP + host, PORT_RE);
    LitThen(':', TextRe(false, rest, PORT_RE).value, t, n, digit);
  }

  /** A host name is matched by plain characters up to `k`, where the text ends or a port starts. */
  lemma TailMatched(host: string, t: string, n: nat, digit: char -> bool) returns (k: nat)
    requires ReadableChars(host) && n <= |t| && TailRe(host).Some? && Matches(TailRe(host).value, t, n, |t|, digit)
    ensures n < k <= |t| && (k < |t| ==> t[k] == ':')
    ensures forall i :: n < i < k ==> !IsQuantifier(t[i]) && t[i] != '['
  {
    var rest := "//" + host;
    AfterColon(host, t, n, digit);
    k := TextMatched(false, rest, PORT_RE, t, n + 1, |t|, digit);
    PortMatches(t, k, digit);
    assert k < |t| ==> t[k..][0] == t[k];
    assert forall c :: c in rest ==> c == '/' || c in host;
    forall i | n < i < k ensures t[i] in t[n + 1..k] {
      assert t[n + 1..k][i - n - 1] == t[i];
    }
  }

  /** No host name can match such a character, and no port can start before it. */
  lemma ForeignTail(scheme: string, host: string, t: string, b: nat, digit: char -> bool)
    requires ReadableChars(host) && TailRe(host).Some? && Foreign(scheme, t, b)
    ensures !Matches(TailRe(host).value, t, |scheme|, |t|, digit)
  {
    if Matches(TailRe(host).value, t, |scheme|, |t|, digit) {
      var k := TailMatched(host, t, |scheme|, digit);
    }
  }

  lemma ForeignIsRefused(scheme: string, other: Site, t: string, b: nat, digit: char -> bool)
    requires ':' !in scheme && ProperSite(other) && Readable(other) && PlainScheme(other.scheme) && Foreign(scheme, t, b)
    ensures !PieceMatches(PatternOf(other), t, digit)
  {
    if PieceMatches(PatternOf(other), t, digit) {
      MatchedFromColon(other, t, digit);
      SameScheme(scheme, other.scheme, t);
      ForeignTail(scheme, other.host, t, b, digit);
    }
  }

  lemma MatchedFromColon(other: Site, t: string, digit: char -> bool)
    requires Readable(other) && PlainScheme(other.scheme) && PieceMatches(PatternOf(other), t, digit)
    ensures other.scheme + ":" <= t && TailRe(other.host).Some?
    ensures Matches(TailRe(other.host).value, t, |other.scheme|, |t|, digit)
  {
    PlainSchemeMatches(other, t, digit);
    TailStartsAtColon(other.host, t, |other.scheme|, digit);
    ColonFollows(other.scheme, t);
  }

  lemma ColonFollows(a: string, t: string)
    requires a <= t && |a| < |t| && t[|a|] == ':'
    ensures a + ":" <= t
  {
  }

  /** The own origin of a site with a star or a plus in its host name is matched by no pattern. */
  lemma StarKeepsOut(site: Site, other: Site, digit: char -> bool)
    requires ProperSite(site) && ProperSite(other) && Readable(other) && PlainScheme(other.scheme)
    requires !site.bracketed && exists c :: c in site.host && IsQuantifier(c)
    ensures !PieceMatches(PatternOf(other), Written(site), digit)
  {
    var t, n := Written(site), |site.scheme| + 3;
    var i :| 0 <= i < |site.host| && IsQuantifier(site.host[i]);
    assert t[n..] == site.host && forall k :: n <= k < |t| ==> t[k] == site.host[k - n];
    assert site.scheme + ":" <= t;
    assert Foreign(site.scheme, t, n + i);
    ForeignIsRefused(site.scheme, other, t, n + i, digit);
  }

  /** The pattern is made without the brackets of an IPv6 address, so no pattern matches its origin. */
  lemma BracketKeepsOut(site: Site, other: Site, digit: char -> bool)
    requires ProperSite(site) && ProperSite(other) && Readable(other) && site.bracketed && PlainScheme(other.scheme)
    ensures !PieceMatches(PatternOf(other), Written(site), digit)
  {
    var t := Written(site);
    assert site.scheme + ":" <= t;
    assert Foreign(site.scheme, t, |site.scheme| + 3);
    ForeignIsRefused(site.scheme, other, t, |site.scheme| + 3, digit);
  }

  lemma ExactMeansPlainSites(parse: Parser, origins: seq<string>, digit: char -> bool)
    requires Proper(parse) && ReadableHosts(parse, origins) && Built(parse, origins).Some? && Exact(parse, origins, digit)
    ensures PlainSites(parse, origins)
  {
    ExactMeansPlainSchemes(parse, origins, digit);
    forall site | Configured(parse, origins, site) ensures !site.bracketed && PlainHost(site.host) {
      OwnOriginMatched(parse, origins, site, digit);
      BuiltMatches(parse, origins, Written(site), digit);
      var other :| Configured(parse, origins, other) && PieceMatches(PatternOf(other), Written(site), digit);
      SiteIsProper(parse, origins, site);
      SiteIsProper(parse, origins, other);
      if site.bracketed {
        BracketKeepsOut(site, other, digit);
      } else if c :| c in site.host && IsQuantifier(c) {
        StarKeepsOut(site, other, digit);
      }
    }
  }

  /**
   The pattern accepts exactly the configured origins with an optional numeric port, if and only if no scheme
   holds a dot or a plus (schemes are not escaped), no host stands in brackets (the pattern is made without
   them), and no host holds a star or a plus (they are not escaped either).
   */
  lemma ExactlyWhenPlain(parse: Parser, origins: seq<string>, digit: char -> bool)
    requires Proper(parse) && ReadableHosts(parse, origins) && Built(parse, origins).Some?
    ensures Exact(parse, origins, digit) <==> PlainSites(parse, origins)
  {
    if PlainSites(parse, origins) {
      PlainIsExact(parse, origins, digit);
    }
    if Exact(parse, origins, digit) {
      ExactMeansPlainSites(parse, origins, digit);
    }
  }
}
