/**
 * The scripted test server of server.go: a route table from an exact request
 * key to a configured sequence of responses with a call counter, the request
 * key built from a URL, and the handler that picks, advances and renders the
 * next response, or answers 501 when the key is unknown or used up.
 */
module Tstsrv {
  import opened Strings

  /** The placeholder that bodies may contain; it is replaced by the server's base URL. */
  const UriToken: string := "$$URI$$"

  /** `http.StatusNotImplemented`. */
  const StatusNotImplemented: int := 501

  /** One canned HTTP response. */
  datatype Response = Response(statusCode: int, body: string, dropConnection: bool)

  /** The configuration of one route: its responses and how many have been served. */
  datatype RespConfiguration = RespConfiguration(responses: seq<Response>, callCount: nat)

  /** The route table, keyed by the exact request key. */
  type Routes = map<string, RespConfiguration>

  /** The two parts of a request URL the key is built from. */
  datatype Url = Url(path: string, rawQuery: string)

  /** What the handler writes for one request. */
  datatype Outcome =
    | NotImplemented                      // status 501, empty body, connection kept
    | Dropped(status: int)                // status header, then the connection is closed
    | Served(status: int, body: string)   // status and complete body
  {
    function Status(): int
    {
      match this
      case NotImplemented => StatusNotImplemented
      case Dropped(s) => s
      case Served(s, _) => s
    }
  }

  /** Every route's counter is within its sequence. */
  predicate Bounded(routes: Routes)
  {
    forall k :: k in routes ==> routes[k].callCount <= |routes[k].responses|
  }

  // ---------------------------------------------------------------------------
  // The request key

  /** `rawUrl`: the path, followed by `?` and the raw query when that is not empty. */
  function RawUrl(u: Url): (r: string)
    ensures |u.path| <= |r| && r[..|u.path|] == u.path
    ensures u.rawQuery == [] <==> r == u.path
    ensures u.rawQuery != [] ==> r[|u.path|] == '?' && r[|u.path| + 1..] == u.rawQuery
  {
    if u.rawQuery != [] then u.path + "?" + u.rawQuery else u.path
  }

  /** Reads a key back into path and query, cutting at the first `?`. */
  function ParseKey(key: string): (u: Url)
    ensures |u.path| <= |key| && key[..|u.path|] == u.path && '?' !in u.path
    decreases |key|
  {
    if key == [] then Url([], [])
    else if key[0] == '?' then Url([], key[1..])
    else
      var u := ParseKey(key[1..]);
      Url([key[0]] + u.path, u.rawQuery)
  }

  /** A first character other than `?` belongs to the path. */
  lemma ParseKeyCons(c: char, rest: string)
    requires c != '?'
    ensures ParseKey([c] + rest) == Url([c] + ParseKey(rest).path, ParseKey(rest).rawQuery)
  {
    assert ([c] + rest)[0] == c;
    assert ([c] + rest)[1..] == rest;
  }

  /** A key that starts with `?` has an empty path and the rest as its query. */
  lemma ParseKeyQuery(q: string)
    ensures ParseKey("?" + q) == Url([], q)
  {
    assert ("?" + q)[0] == '?';
    assert ("?" + q)[1..] == q;
  }

  /** A path without `?` is given back by cutting its key at the first `?`. */
  lemma {:induction false} ParseKeyPrefix(path: string, rest: string)
    requires '?' !in path
    ensures ParseKey(path + rest) == (var u := ParseKey(rest); Url(path + u.path, u.rawQuery))
    decreases |path|
  {
    var u := ParseKey(rest);
    if path == [] {
      assert path + rest == rest;
      assert path + u.path == u.path;
    } else {
      var c, p := path[0], path[1..];
      assert path + rest == [c] + (p + rest);
      ParseKeyCons(c, p + rest);
      ParseKeyPrefix(p, rest);
      assert [c] + (p + u.path) == path + u.path;
    }
  }

  /**
   * The key is built without normalisation: for a path without `?`, path and
   * query are read back from it exactly.
   */
  lemma RawUrlRoundTrip(u: Url)
    requires '?' !in u.path
    ensures ParseKey(RawUrl(u)) == u
  {
    if u.rawQuery != [] {
      assert RawUrl(u) == u.path + ("?" + u.rawQuery);
      ParseKeyPrefix(u.path, "?" + u.rawQuery);
      ParseKeyQuery(u.rawQuery);
      assert u.path + [] == u.path;
    } else {
      ParseKeyPrefix(u.path, []);
      assert u.path + [] == u.path;
    }
  }

  /** Two requests whose paths have no `?` share a route only when path and query agree. */
  lemma RawUrlInjective(u: Url, v: Url)
    requires '?' !in u.path && '?' !in v.path
    ensures RawUrl(u) == RawUrl(v) <==> u == v
  {
    RawUrlRoundTrip(u);
    RawUrlRoundTrip(v);
  }

  /**
   * A (decoded) path may contain `?`: such a request gets the same key as a
   * different path with a query, so both address one route.
   */
  lemma RawUrlCollision()
    ensures Url("/a?b", "") != Url("/a", "b") && RawUrl(Url("/a?b", "")) == RawUrl(Url("/a", "b"))
  {
  }

  // ---------------------------------------------------------------------------
  // The decision for one request, as functions of the route table

  /** Which configured response a request would use, if any. */
  datatype Selection = Unmatched | Matched(index: nat)

  /** The sequencer's decision: the unknown and the used-up key are one case. */
  function Select(routes: Routes, key: string): (s: Selection)
    ensures s.Matched? <==> key in routes && routes[key].callCount < |routes[key].responses|
    ensures s.Matched? ==> s.index == routes[key].callCount
  {
    if key !in routes || routes[key].callCount >= |routes[key].responses| then Unmatched
    else Matched(routes[key].callCount)
  }

  /** The route table after one request: only the addressed counter moves, by one. */
  function Advance(routes: Routes, key: string): (r: Routes)
    ensures r.Keys == routes.Keys
    ensures forall k :: k in routes && k != key ==> r[k] == routes[k]
    ensures forall k :: k in routes ==> r[k].responses == routes[k].responses
    ensures Select(routes, key).Unmatched? ==> r == routes
    ensures Select(routes, key).Matched? ==> r[key].callCount == routes[key].callCount + 1
    ensures Bounded(routes) ==> Bounded(r)
  {
    match Select(routes, key)
    case Unmatched => routes
    case Matched(i) => routes[key := routes[key].(callCount := i + 1)]
  }

  /** A matched response as the handler writes it: a severed connection, or its body with the token expanded. */
  function Render(response: Response, url: string): (o: Outcome)
    ensures o.Status() == response.statusCode && !o.NotImplemented?
    ensures o.Dropped? <==> response.dropConnection
    ensures o.Served? ==> o.body == ReplaceAll(response.body, UriToken, url)
  {
    if response.dropConnection then Dropped(response.statusCode)
    else Served(response.statusCode, ReplaceAll(response.body, UriToken, url))
  }

  /** What one request to `key` observes. */
  function Respond(routes: Routes, key: string, url: string): (o: Outcome)
    ensures o == NotImplemented <==> key !in routes || routes[key].callCount >= |routes[key].responses|
    ensures o.NotImplemented? ==> o.Status() == StatusNotImplemented
    ensures key in routes && routes[key].callCount < |routes[key].responses| ==>
              o == Render(routes[key].responses[routes[key].callCount], url)
  {
    match Select(routes, key)
    case Unmatched => NotImplemented
    case Matched(i) => Render(routes[key].responses[i], url)
  }

  /**
   * A served body is the configured body with every occurrence of the token,
   * and nothing else, replaced by the base URL: cut at the tokens, the body
   * and the served text have the same pieces.
   */
  lemma RenderedBody(response: Response, url: string)
    requires !response.dropConnection
    ensures Join(Split(response.body, UriToken), UriToken) == response.body
    ensures Render(response, url).body == Join(Split(response.body, UriToken), url)
    ensures |Render(response, url).body|
            == |response.body| + (|Split(response.body, UriToken)| - 1) * (|url| - |UriToken|)
  {
    var body, token := response.body, UriToken;
    JoinSplit(body, token);
    ReplaceAllIsJoinSplit(body, token, url);
    ReplaceAllLength(body, token, url);
  }

  /** A body without the token is served unchanged. */
  lemma RenderWithoutToken(response: Response, url: string)
    requires !response.dropConnection && !Contains(response.body, UriToken)
    ensures Render(response, url) == Served(response.statusCode, response.body)
  {
  }

  /** A body without any `$` is served unchanged. */
  lemma RenderWithoutDollar(response: Response, url: string)
    requires !response.dropConnection && '$' !in response.body
    ensures Render(response, url) == Served(response.statusCode, response.body)
  {
    LacksFirstChar(response.body, UriToken);
  }

  // ---------------------------------------------------------------------------
  // The server object

  class Server {
    /** The route table; only the counters change. */
    var routes: Routes
    /** The base URL of the listener, given when the server starts. */
    const url: string

    ghost predicate Valid()
      reads this
    {
      Bounded(routes)
    }

    /** `New`: the server owns the given route table. */
    constructor (routes: Routes, url: string)
      ensures this.routes == routes && this.url == url
      ensures Bounded(routes) ==> Valid()
    {
      this.routes := routes;
      this.url := url;
    }

    /** The handler: one request, served atomically under the server's lock. */
    method Handle(request: Url) returns (outcome: Outcome)
      modifies this
      ensures var key := RawUrl(request);
              && outcome == Respond(old(routes), key, url)
              && routes == Advance(old(routes), key)
      ensures routes.Keys == old(routes).Keys
      ensures forall k :: k in old(routes) && k != RawUrl(request) ==> routes[k] == old(routes)[k]
      ensures forall k :: k in old(routes) ==> routes[k].responses == old(routes)[k].responses
      ensures var key := RawUrl(request);
              outcome.NotImplemented? <==>
                (key !in old(routes) || old(routes)[key].callCount >= |old(routes)[key].responses|)
      ensures outcome.NotImplemented? ==> routes == old(routes)
      ensures var key := RawUrl(request);
              !outcome.NotImplemented? ==>
                && routes[key].callCount == old(routes)[key].callCount + 1
                && outcome == Render(old(routes)[key].responses[old(routes)[key].callCount], url)
      ensures old(Valid()) ==> Valid()
    {
      var requestUri := RawUrl(request);
      if requestUri !in routes || routes[requestUri].callCount >= |routes[requestUri].responses| {
        return NotImplemented;
      }
      var routeConfig := routes[requestUri];
      var response := routeConfig.responses[routeConfig.callCount];
      routeConfig := routeConfig.(callCount := routeConfig.callCount + 1);
      routes := routes[requestUri := routeConfig];
      if response.dropConnection {
        outcome := Dropped(response.statusCode);
      } else {
        var body := ReplaceAll(response.body, UriToken, url);
        outcome := Served(response.statusCode, body);
      }
    }
  }
}
