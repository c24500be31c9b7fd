/**
 Model of _default_cors_origins in backend/app/platform/app_factory.py: the list of default origins.
 urlparse is a parameter.
 */
module CorsOrigins {
  import opened Text

  /** What urlparse gives; `hostname` is "" for None, and comes without the brackets it may stand in. */
  datatype Url = Url(scheme: string, netloc: string, hostname: string, bracketed: bool)

  /** None: urlparse raises. */
  type Parser = string -> Option<Url>

  predicate IsSchemeChar(c: char) {
    'a' <= c <= 'z' || 'A' <= c <= 'Z' || '0' <= c <= '9' || c == '+' || c == '-' || c == '.'
  }

  ghost predicate IsScheme(s: string) {
    (s != "" ==> IsSchemeChar(s[0]) && s[0] != '+') && forall c :: c in s ==> IsSchemeChar(c)
  }

  /**
   Section 3 of RFC 3986: the scheme's characters, a network location that ends at a slash, and a host name
   that ends at a colon unless it stands in brackets.
   */
  ghost predicate Proper(parse: Parser) {
    forall s :: parse(s).Some? ==>
      && IsScheme(parse(s).value.scheme) && '/' !in parse(s).value.netloc && '/' !in parse(s).value.hostname
      && (!parse(s).value.bracketed ==> ':' !in parse(s).value.hostname)
  }

  // ---- The default origins ------------------------------------------------------------------------------

  const SEP := "://"
  const LOCALHOST := "://localhost"
  const LOOPBACK := "://127.0.0.1"

  /** What is added, in order: the two settings and the usual local ports. */
  function Settings(frontend: Option<string>, api: string): seq<Option<string>> {
    [frontend, Some(api), Some("http://localhost:9091"), Some("http://localhost:3000"),
     Some("http://localhost:5174"), Some("http://localhost")]
  }

  datatype Found = Raised | NoOrigin | Origin(text: string)

  /** origin_from_url */
  function OriginOf(parse: Parser, raw: Option<string>): Found {
    var candidate := if raw.Some? then Strip(raw.value) else "";
    if candidate == "" then NoOrigin
    else
      match parse(candidate)
      case None => Raised
      case Some(u) => if u.scheme != "" && u.netloc != "" then Origin(u.scheme + SEP + u.netloc) else NoOrigin
  }

  /** str.replace(old, new, 1) */
  function ReplaceFirst(s: string, from: string, to: string): string {
    if OccursAt(s, from, 0) then to + s[|from|..]
    else if s == "" then s
    else [s[0]] + ReplaceFirst(s[1..], from, to)
  }

  function TwinOf(origin: string): Option<string> {
    if Contains(origin, LOCALHOST) then Some(ReplaceFirst(origin, LOCALHOST, LOOPBACK))
    else if Contains(origin, LOOPBACK) then Some(ReplaceFirst(origin, LOOPBACK, LOCALHOST))
    else None
  }

  function WithTwin(origin: string): seq<string> {
    match TwinOf(origin)
    case None => [origin]
    case Some(w) => [origin, w]
  }

  /** A new origin comes in together with its twin, which cannot be there yet. */
  function Added(origins: seq<string>, found: Found): seq<string> {
    match found
    case Origin(o) => if o in origins then origins else origins + WithTwin(o)
    case _ => origins
  }

  function Listed(parse: Parser, raws: seq<Option<string>>): seq<string> {
    if raws == [] then [] else Added(Listed(parse, raws[..|raws| - 1]), OriginOf(parse, raws[|raws| - 1]))
  }

  ghost predicate IsOrigin(o: string) {
    exists scheme: string, netloc: string {:trigger scheme + SEP + netloc} ::
      ':' !in scheme && '/' !in netloc && o == scheme + SEP + netloc
  }

  /** No duplicates, and every localhost origin next to its loopback twin. */
  ghost predicate Closed(origins: seq<string>) {
    && NoDup(origins)
    && (forall o :: o in origins ==> IsOrigin(o))
    && (forall o :: o in origins && TwinOf(o).Some? ==> TwinOf(o).value in origins)
  }

  class OriginList {
    var origins: seq<string>
    var seen: set<string>

    ghost predicate Valid()
      reads this
    {
      Closed(origins) && seen == set o | o in origins
    }

    constructor ()
      ensures Valid() && origins == []
    {
      origins, seen := [], {};
    }

    method Add(parse: Parser, raw: Option<string>) returns (ok: bool)
      requires Valid() && Proper(parse)
      modifies this
      ensures Valid()
      ensures ok <==> OriginOf(parse, raw) != Raised
      ensures origins == Added(old(origins), OriginOf(parse, raw))
    {
      var found := OriginOf(parse, raw);
      if found.Raised? {
        return false;
      }
      ok := true;
      if found.NoOrigin? || found.text in seen {
        return;
      }
      var origin := found.text;
      FoundIsOrigin(parse, raw);
      AddKeepsClosed(origins, origin);
      var twin := TwinOf(origin);
      seen := seen + {origin};
      origins := origins + [origin];
      if twin.Some? {
        if twin.value !in seen {
          seen := seen + {twin.value};
          origins := origins + [twin.value];
        }
      }
    }
  }

  /** urlparse raises on one of the inputs. */
  ghost predicate RaisesOn(parse: Parser, raws: seq<Option<string>>) {
    exists raw :: raw in raws && OriginOf(parse, raw) == Raised
  }

  lemma OneMoreInput(parse: Parser, raws: seq<Option<string>>, i: nat)
    requires i < |raws|
    ensures Listed(parse, raws[..i + 1]) == Added(Listed(parse, raws[..i]), OriginOf(parse, raws[i]))
    ensures OriginOf(parse, raws[i]) == Raised ==> RaisesOn(parse, raws)
    ensures RaisesOn(parse, raws[..i + 1]) ==> RaisesOn(parse, raws[..i]) || OriginOf(parse, raws[i]) == Raised
  {
    assert raws[..i + 1][..i] == raws[..i];
    assert raws[i] in raws;
    assert forall x :: x in raws[..i + 1] ==> x in raws[..i] || x == raws[i];
  }

  method AddAll(parse: Parser, raws: seq<Option<string>>) returns (r: Option<seq<string>>)
    requires Proper(parse)
    ensures r.None? <==> RaisesOn(parse, raws)
    ensures r.Some? ==> r.value == Listed(parse, raws)
  {
    var list := new OriginList();
    for i := 0 to |raws|
      invariant list.Valid() && list.origins == Listed(parse, raws[..i])
      invariant !RaisesOn(parse, raws[..i])
    {
      OneMoreInput(parse, raws, i);
      var ok := list.Add(parse, raws[i]);
      if !ok {
        return None;
      }
    }
    assert raws[..|raws|] == raws;
    r := Some(list.origins);
  }

  /** None: urlparse raises on one of the settings, and so does start-up. */
  method DefaultOrigins(parse: Parser, frontend: Option<string>, api: string) returns (r: Option<seq<string>>)
    requires Proper(parse)
    ensures r.None? <==> exists text :: IsInput(frontend, api, text) && Strip(text) != "" && parse(Strip(text)) == None
    ensures r.Some? ==> Closed(r.value)
    ensures r.Some? ==> forall o :: o in r.value <==> exists text :: IsInput(frontend, api, text) && IsOriginOf(parse, text, o)
  {
    r := AddAll(parse, Settings(frontend, api));
    ListedMeaning(parse, Settings(frontend, api));
    RaisesExactly(parse, frontend, api);
    forall o { AskedForExactly(parse, frontend, api, o); }
  }

  lemma FoundIsOrigin(parse: Parser, raw: Option<string>)
    requires Proper(parse) && OriginOf(parse, raw).Origin?
    ensures IsOrigin(OriginOf(parse, raw).text)
  {
    var u := parse(Strip(raw.value)).value;
    assert ':' !in u.scheme;
  }

  // ---- Twins -------------------------------------------------------------------------------------------------

  /** In an origin "://host" can only stand after the scheme. */
  lemma OnlyAfterScheme(scheme: string, netloc: string, host: string, i: nat)
    requires ':' !in scheme && '/' !in netloc && OccursAt(scheme + SEP + netloc, SEP + host, i)
    ensures i == |scheme| && host <= netloc
  {
    var o, sub := scheme + SEP + netloc, SEP + host;
    var found := o[i..i + |sub|];
    assert found[0] == o[i] && found[1] == o[i + 1] && found[2] == o[i + 2];
    assert o[i + 2] == '/' && o[i + 1] == '/' && o[i] == ':';
    assert found[3..] == host && netloc[..|host|] == found[3..];
  }

  lemma ContainsHost(scheme: string, netloc: string, host: string)
    requires ':' !in scheme && '/' !in netloc
    ensures Contains(scheme + SEP + netloc, SEP + host) <==> host <= netloc
  {
    var o, sub := scheme + SEP + netloc, SEP + host;
    if Contains(o, sub) {
      var i: nat :| i <= |o| && OccursAt(o, sub, i);
      OnlyAfterScheme(scheme, netloc, host, i);
    }
    if host <= netloc {
      assert o[|scheme|..|scheme| + |sub|] == sub;
      assert OccursAt(o, sub, |scheme|);
    }
  }

  lemma {:induction false} ReplaceHost(scheme: string, netloc: string, host: string, other: string)
    requires ':' !in scheme && host <= netloc
    ensures ReplaceFirst(scheme + SEP + netloc, SEP + host, SEP + other) == scheme + SEP + (other + netloc[|host|..])
  {
    var o, sub, to := scheme + SEP + netloc, SEP + host, SEP + other;
    if scheme == "" {
      assert o[0..0 + |sub|] == sub;
      assert o[|sub|..] == netloc[|host|..];
      assert to + netloc[|host|..] == scheme + SEP + (other + netloc[|host|..]);
    } else {
      assert o[0] == scheme[0];
      assert o[1..] == scheme[1..] + SEP + netloc;
      ReplaceHost(scheme[1..], netloc, host, other);
      assert [scheme[0]] + (scheme[1..] + SEP + (other + netloc[|host|..])) == scheme + SEP + (other + netloc[|host|..]);
    }
  }

  const LOCAL_NAME := "localhost"
  const LOCAL_ADDRESS := "127.0.0.1"

  function TwinNetloc(netloc: string): Option<string> {
    if LOCAL_NAME <= netloc then Some(LOCAL_ADDRESS + netloc[|LOCAL_NAME|..])
    else if LOCAL_ADDRESS <= netloc then Some(LOCAL_NAME + netloc[|LOCAL_ADDRESS|..])
    else None
  }

  /** The twin swaps the two names at the head of the network location. */
  lemma TwinSwapsHead(scheme: string, netloc: string)
    requires ':' !in scheme && '/' !in netloc
    ensures TwinOf(scheme + SEP + netloc) ==
      match TwinNetloc(netloc) case None => None case Some(net) => Some(scheme + SEP + net)
  {
    assert LOCALHOST == SEP + LOCAL_NAME && LOOPBACK == SEP + LOCAL_ADDRESS;
    ContainsHost(scheme, netloc, LOCAL_NAME);
    ContainsHost(scheme, netloc, LOCAL_ADDRESS);
    if LOCAL_NAME <= netloc {
      ReplaceHost(scheme, netloc, LOCAL_NAME, LOCAL_ADDRESS);
    } else if LOCAL_ADDRESS <= netloc {
      ReplaceHost(scheme, netloc, LOCAL_ADDRESS, LOCAL_NAME);
    }
  }

  lemma TwinNetlocTwice(netloc: string)
    requires '/' !in netloc && TwinNetloc(netloc).Some?
    ensures var net := TwinNetloc(netloc).value; '/' !in net && net != netloc && TwinNetloc(net) == Some(netloc)
  {
    var net := TwinNetloc(netloc).value;
    if LOCAL_NAME <= netloc {
      assert net[0] == '1' && netloc[0] == 'l';
      assert LOCAL_NAME + net[|LOCAL_ADDRESS|..] == netloc;
    } else {
      assert net[0] == 'l' && netloc[0] == '1';
      assert LOCAL_ADDRESS + net[|LOCAL_NAME|..] == netloc;
    }
  }

  /** So the twin is another origin, and its twin is the first one. */
  lemma TwinTwice(o: string)
    requires IsOrigin(o) && TwinOf(o).Some?
    ensures var w := TwinOf(o).value; IsOrigin(w) && w != o && TwinOf(w) == Some(o)
  {
    var scheme: string, netloc: string :| ':' !in scheme && '/' !in netloc && o == scheme + SEP + netloc;
    TwinSwapsHead(scheme, netloc);
    TwinNetlocTwice(netloc);
    var net := TwinNetloc(netloc).value;
    TwinSwapsHead(scheme, net);
    var w := scheme + SEP + net;
    assert net == w[|scheme| + 3..] && netloc == o[|scheme| + 3..];
  }

  lemma AddKeepsClosed(origins: seq<string>, o: string)
    requires Closed(origins) && IsOrigin(o) && o !in origins
    ensures Closed(origins + WithTwin(o))
    ensures TwinOf(o).Some? ==> TwinOf(o).value !in origins && TwinOf(o).value != o
  {
    if TwinOf(o).Some? {
      TwinTwice(o);
    }
  }

  lemma {:induction false} ListedClosed(parse: Parser, raws: seq<Option<string>>)
    requires Proper(parse)
    ensures Closed(Listed(parse, raws))
  {
    if raws != [] {
      var rest, raw := raws[..|raws| - 1], raws[|raws| - 1];
      ListedClosed(parse, rest);
      if OriginOf(parse, raw).Origin? && OriginOf(parse, raw).text !in Listed(parse, rest) {
        FoundIsOrigin(parse, raw);
        AddKeepsClosed(Listed(parse, rest), OriginOf(parse, raw).text);
      }
    }
  }

  /** What is there afterwards was there before, or is the new origin or its twin. */
  lemma AddedMembers(origins: seq<string>, found: Found, o: string)
    requires Closed(origins)
    ensures o in Added(origins, found) <==> o in origins || (found.Origin? && o in WithTwin(found.text))
  {
  }

  ghost predicate AskedFor(parse: Parser, raws: seq<Option<string>>, o: string) {
    exists raw :: raw in raws && OriginOf(parse, raw).Origin? && o in WithTwin(OriginOf(parse, raw).text)
  }

  /** The texts whose origins are listed: the two settings and four local addresses. */
  ghost predicate IsInput(frontend: Option<string>, api: string, text: string) {
    || frontend == Some(text) || text == api
    || text in {"http://localhost:9091", "http://localhost:3000", "http://localhost:5174", "http://localhost"}
  }

  /** Stripped and parsed, the text has this scheme and network location, and neither is missing. */
  ghost predicate ParsesTo(parse: Parser, text: string, scheme: string, netloc: string) {
    && Strip(text) != "" && scheme != "" && netloc != ""
    && exists u :: parse(Strip(text)) == Some(u) && u.scheme == scheme && u.netloc == netloc
  }

  /** The same network location, or with "localhost" and "127.0.0.1" exchanged at its head. */
  ghost predicate SameOrSwapped(netloc: string, head: string) {
    || head == netloc
    || ("localhost" <= netloc && head == "127.0.0.1" + netloc[9..])
    || ("127.0.0.1" <= netloc && head == "localhost" + netloc[9..])
  }

  /** `o` is the origin of the text or its twin. */
  ghost predicate IsOriginOf(parse: Parser, text: string, o: string) {
    exists scheme, netloc, head {:trigger ParsesTo(parse, text, scheme, netloc), SameOrSwapped(netloc, head)} ::
      ParsesTo(parse, text, scheme, netloc) && SameOrSwapped(netloc, head) && o == scheme + "://" + head
  }

  lemma InputsAre(frontend: Option<string>, api: string, text: string)
    ensures Some(text) in Settings(frontend, api) <==> IsInput(frontend, api, text)
  {
    var raws := Settings(frontend, api);
    assert raws[0] in raws && raws[1] in raws && raws[2] in raws && raws[3] in raws && raws[4] in raws && raws[5] in raws;
  }

  lemma WithTwinIs(scheme: string, netloc: string, head: string)
    requires ':' !in scheme && '/' !in netloc
    ensures scheme + "://" + head in WithTwin(scheme + "://" + netloc) <==> SameOrSwapped(netloc, head)
    ensures forall w :: w in WithTwin(scheme + "://" + netloc) ==> exists h :: w == scheme + "://" + h
  {
    TwinSwapsHead(scheme, netloc);
    SameTail(scheme, netloc, head);
    if TwinNetloc(netloc).Some? {
      SameTail(scheme, TwinNetloc(netloc).value, head);
    }
    forall w | w in WithTwin(scheme + "://" + netloc) ensures exists h :: w == scheme + "://" + h {
      if w == scheme + "://" + netloc {
      } else {
        assert w == scheme + "://" + TwinNetloc(netloc).value;
      }
    }
  }

  lemma SameTail(scheme: string, a: string, b: string)
    ensures scheme + "://" + a == scheme + "://" + b <==> a == b
  {
    assert a == (scheme + "://" + a)[|scheme| + 3..] && b == (scheme + "://" + b)[|scheme| + 3..];
  }

  lemma InputOrigins(parse: Parser, text: string, o: string)
    requires Proper(parse)
    ensures OriginOf(parse, Some(text)).Origin? && o in WithTwin(OriginOf(parse, Some(text)).text) <==> IsOriginOf(parse, text, o)
  {
    if OriginOf(parse, Some(text)).Origin? && o in WithTwin(OriginOf(parse, Some(text)).text) {
      var u := parse(Strip(text)).value;
      WithTwinIs(u.scheme, u.netloc, u.netloc);
      var head :| o == u.scheme + "://" + head;
      WithTwinIs(u.scheme, u.netloc, head);
      assert ParsesTo(parse, text, u.scheme, u.netloc) && SameOrSwapped(u.netloc, head);
    }
    if IsOriginOf(parse, text, o) {
      var scheme, netloc, head :|
        ParsesTo(parse, text, scheme, netloc) && SameOrSwapped(netloc, head) && o == scheme + "://" + head;
      WithTwinIs(scheme, netloc, head);
    }
  }

  /** What is asked for: the origins of the inputs, and the same with the two local names exchanged. */
  lemma AskedForExactly(parse: Parser, frontend: Option<string>, api: string, o: string)
    requires Proper(parse)
    ensures AskedFor(parse, Settings(frontend, api), o) <==>
      exists text :: IsInput(frontend, api, text) && IsOriginOf(parse, text, o)
  {
    if AskedFor(parse, Settings(frontend, api), o) {
      var raw :| raw in Settings(frontend, api) && OriginOf(parse, raw).Origin? && o in WithTwin(OriginOf(parse, raw).text);
      InputsAre(frontend, api, raw.value);
      InputOrigins(parse, raw.value, o);
    }
    if text :| IsInput(frontend, api, text) && IsOriginOf(parse, text, o) {
      InputsAre(frontend, api, text);
      InputOrigins(parse, text, o);
    }
  }

  lemma RaisesExactly(parse: Parser, frontend: Option<string>, api: string)
    ensures RaisesOn(parse, Settings(frontend, api)) <==>
      exists text :: IsInput(frontend, api, text) && Strip(text) != "" && parse(Strip(text)) == None
  {
    if RaisesOn(parse, Settings(frontend, api)) {
      var raw :| raw in Settings(frontend, api) && OriginOf(parse, raw) == Raised;
      InputsAre(frontend, api, raw.value);
    }
    if text :| IsInput(frontend, api, text) && Strip(text) != "" && parse(Strip(text)) == None {
      InputsAre(frontend, api, text);
    }
  }

  lemma {:induction false} ListedMembers(parse: Parser, raws: seq<Option<string>>, o: string)
    requires Proper(parse)
    ensures o in Listed(parse, raws) <==> AskedFor(parse, raws, o)
  {
    if raws != [] {
      var rest, raw := raws[..|raws| - 1], raws[|raws| - 1];
      ListedMembers(parse, rest, o);
      ListedClosed(parse, rest);
      AddedMembers(Listed(parse, rest), OriginOf(parse, raw), o);
      assert forall x :: x in raws <==> x in rest || x == raw by { assert raws == rest + [raw]; }
    }
  }

  /** The list holds the origins of the settings and their twins, and nothing else. */
  lemma ListedMeaning(parse: Parser, raws: seq<Option<string>>)
    requires Proper(parse)
    ensures Closed(Listed(parse, raws)) && forall o :: o in Listed(parse, raws) <==> AskedFor(parse, raws, o)
  {
    ListedClosed(parse, raws);
    forall o { ListedMembers(parse, raws, o); }
  }
}
