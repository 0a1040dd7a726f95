/**
 * Successive requests against one route table. The handler runs under one
 * lock, so any set of requests, concurrent or not, is served as some
 * sequence of keys; these lemmas say what every request in such a sequence
 * observes, and what the table looks like afterwards.
 */
module Sequencer {
  import opened Strings
  import opened Tstsrv

  /** The decisions for a sequence of request keys, each on the table the previous ones left. */
  function Replay(routes: Routes, keys: seq<string>): (sels: seq<Selection>)
    ensures |sels| == |keys|
    ensures forall i :: 0 <= i < |keys| && sels[i].Matched? ==>
              keys[i] in routes && sels[i].index < |routes[keys[i]].responses|
    decreases |keys|
  {
    if keys == [] then []
    else [Select(routes, keys[0])] + Replay(Advance(routes, keys[0]), keys[1..])
  }

  /** The route table after a sequence of request keys. */
  function After(routes: Routes, keys: seq<string>): (r: Routes)
    ensures r.Keys == routes.Keys
    decreases |keys|
  {
    if keys == [] then routes else After(Advance(routes, keys[0]), keys[1..])
  }

  /** What each of a sequence of requests observes. */
  function Outcomes(routes: Routes, keys: seq<string>, url: string): (outs: seq<Outcome>)
    ensures |outs| == |keys|
    decreases |keys|
  {
    if keys == [] then []
    else [Respond(routes, keys[0], url)] + Outcomes(Advance(routes, keys[0]), keys[1..], url)
  }

  /** How many of `keys` are `k`. */
  function CountOf(keys: seq<string>, k: string): nat
    decreases |keys|
  {
    if keys == [] then 0 else (if keys[0] == k then 1 else 0) + CountOf(keys[1..], k)
  }

  /**
   * The decision for a request to `k` that `n` earlier requests to `k`
   * preceded: response number `callCount + n` while there is one, 501 after.
   */
  function Expected(routes: Routes, k: string, n: nat): Selection
  {
    if k in routes && routes[k].callCount + n < |routes[k].responses|
    then Matched(routes[k].callCount + n)
    else Unmatched
  }

  /** The counter of `k` after `n` requests to it, starting from `c` with `len` responses. */
  function Settled(c: nat, len: nat, n: nat): nat
  {
    if c >= len then c else if c + n < len then c + n else len
  }

  /** One request to `k0` shifts what later requests to `k` see by one iff `k0 == k`. */
  lemma ExpectedAfterAdvance(routes: Routes, k0: string, k: string, n: nat)
    ensures Expected(Advance(routes, k0), k, n) == Expected(routes, k, n + (if k0 == k then 1 else 0))
  {
  }

  /**
   * Per-key order, whatever the interleaving: request `i` gets the response
   * after those the earlier requests to the same key consumed, or 501.
   */
  lemma {:induction false} ReplayPerKey(routes: Routes, keys: seq<string>, i: nat)
    requires i < |keys|
    ensures Replay(routes, keys)[i] == Expected(routes, keys[i], CountOf(keys[..i], keys[i]))
    decreases |keys|
  {
    if i > 0 {
      var k0, k := keys[0], keys[i];
      var next := Advance(routes, k0);
      ReplayPerKey(next, keys[1..], i - 1);
      assert Replay(routes, keys)[i] == Replay(next, keys[1..])[i - 1];
      assert keys[1..][i - 1] == k;
      var n := CountOf(keys[1..][..i - 1], k);
      assert CountOf(keys[..i], k) == (if k0 == k then 1 else 0) + n by {
        assert keys[..i][0] == k0;
        assert keys[..i][1..] == keys[1..][..i - 1];
      }
      ExpectedAfterAdvance(routes, k0, k, n);
    }
  }

  /**
   * The table after a sequence of requests: the same keys and response
   * lists, and each counter advanced by the requests to it, up to its length.
   */
  lemma {:induction false} AfterPerKey(routes: Routes, keys: seq<string>)
    ensures forall k :: k in routes ==>
              && After(routes, keys)[k].responses == routes[k].responses
              && After(routes, keys)[k].callCount
                 == Settled(routes[k].callCount, |routes[k].responses|, CountOf(keys, k))
    decreases |keys|
  {
    if keys != [] {
      var next := Advance(routes, keys[0]);
      AfterPerKey(next, keys[1..]);
    }
  }

  /** Every sequence of requests keeps every counter within its sequence. */
  lemma AfterBounded(routes: Routes, keys: seq<string>)
    requires Bounded(routes)
    ensures Bounded(After(routes, keys))
  {
    AfterPerKey(routes, keys);
  }

  /** Only the requests to `k` move its counter: others leave its entry as it was. */
  lemma AfterUntouched(routes: Routes, keys: seq<string>, k: string)
    requires k in routes && CountOf(keys, k) == 0
    ensures After(routes, keys)[k] == routes[k]
  {
    AfterPerKey(routes, keys);
  }

  /** A request observes the response its selection names in the initial table. */
  lemma {:induction false} OutcomesFromReplay(routes: Routes, keys: seq<string>, url: string, i: nat)
    requires i < |keys|
    ensures Outcomes(routes, keys, url)[i]
            == match Replay(routes, keys)[i]
               case Unmatched => NotImplemented
               case Matched(j) => Render(routes[keys[i]].responses[j], url)
    decreases |keys|
  {
    if i > 0 {
      OutcomesFromReplay(Advance(routes, keys[0]), keys[1..], url, i - 1);
    }
  }

  /** `n` requests to one key. */
  function Repeat(k: string, n: nat): (keys: seq<string>)
    ensures |keys| == n && forall i :: 0 <= i < n ==> keys[i] == k
  {
    seq(n, _ => k)
  }

  lemma {:induction false} CountOfRepeat(k: string, n: nat)
    ensures CountOf(Repeat(k, n), k) == n
    decreases n
  {
    if n > 0 {
      assert Repeat(k, n)[1..] == Repeat(k, n - 1);
      CountOfRepeat(k, n - 1);
    }
  }

  /**
   * `n` sequential requests to a key with a fresh counter and `len`
   * responses: request `i` gets response `i` while `i < len`, and 501 after.
   */
  lemma SequentialRequests(routes: Routes, k: string, n: nat, url: string, i: nat)
    requires k in routes && routes[k].callCount == 0
    requires i < n
    ensures Outcomes(routes, Repeat(k, n), url)[i]
            == if i < |routes[k].responses| then Render(routes[k].responses[i], url) else NotImplemented
  {
    var keys := Repeat(k, n);
    ReplayPerKey(routes, keys, i);
    assert keys[..i] == Repeat(k, i);
    CountOfRepeat(k, i);
    OutcomesFromReplay(routes, keys, url, i);
  }

  /** Two requests to one key: the later one never gets the same or an earlier response. */
  lemma InOrderAtMostOnce(routes: Routes, keys: seq<string>, i: nat, j: nat)
    requires i < j < |keys| && keys[i] == keys[j]
    ensures Replay(routes, keys)[j].Matched? ==>
              && Replay(routes, keys)[i].Matched?
              && Replay(routes, keys)[i].index < Replay(routes, keys)[j].index
  {
    ReplayPerKey(routes, keys, i);
    ReplayPerKey(routes, keys, j);
    CountOfPrefixGrows(keys, i, j);
  }

  /** Earlier prefixes hold fewer occurrences of the key at the shorter end. */
  lemma {:induction false} CountOfPrefixGrows(keys: seq<string>, i: nat, j: nat)
    requires i < j <= |keys|
    ensures CountOf(keys[..i], keys[i]) < CountOf(keys[..j], keys[i])
    decreases j
  {
    if j == i + 1 {
      CountOfSnoc(keys[..i], keys[i], keys[i]);
      assert keys[..i] + [keys[i]] == keys[..j];
    } else {
      CountOfPrefixGrows(keys, i, j - 1);
      CountOfSnoc(keys[..j - 1], keys[j - 1], keys[i]);
      assert keys[..j - 1] + [keys[j - 1]] == keys[..j];
    }
  }

  lemma {:induction false} CountOfSnoc(keys: seq<string>, x: string, k: string)
    ensures CountOf(keys + [x], k) == CountOf(keys, k) + (if x == k then 1 else 0)
    decreases |keys|
  {
    if keys != [] {
      assert (keys + [x])[1..] == keys[1..] + [x];
      CountOfSnoc(keys[1..], x, k);
    } else {
      assert [] + [x] == [x];
    }
  }

  /** Once a key is used up, every later request to it gets 501. */
  lemma ExhaustedStaysExhausted(routes: Routes, keys: seq<string>, i: nat, j: nat)
    requires i < j < |keys| && keys[i] == keys[j]
    requires Replay(routes, keys)[i].Unmatched?
    ensures Replay(routes, keys)[j].Unmatched?
  {
    if Replay(routes, keys)[j].Matched? {
      InOrderAtMostOnce(routes, keys, i, j);
    }
  }

  /** Some request in `keys` is the `n`-th one (counting from 0) to `k`. */
  lemma {:induction false} NthRequest(keys: seq<string>, k: string, n: nat)
    requires n < CountOf(keys, k)
    ensures exists i :: 0 <= i < |keys| && keys[i] == k && CountOf(keys[..i], k) == n
    decreases |keys|
  {
    if keys[0] == k && n == 0 {
      assert keys[..0] == [];
    } else {
      var m := if keys[0] == k then n - 1 else n;
      NthRequest(keys[1..], k, m);
      var i :| 0 <= i < |keys[1..]| && keys[1..][i] == k && CountOf(keys[1..][..i], k) == m;
      assert keys[..i + 1][1..] == keys[1..][..i];
      assert keys[i + 1] == k && CountOf(keys[..i + 1], k) == n;
    }
  }

  /**
   * No response is skipped: response `m` is served to some request once the
   * key has been requested `m - callCount + 1` times.
   */
  lemma NoneSkipped(routes: Routes, keys: seq<string>, k: string, m: nat)
    requires k in routes && routes[k].callCount <= m < |routes[k].responses|
    requires CountOf(keys, k) > m - routes[k].callCount
    ensures exists i :: 0 <= i < |keys| && keys[i] == k && Replay(routes, keys)[i] == Matched(m)
  {
    var n: nat := m - routes[k].callCount;
    NthRequest(keys, k, n);
    var i :| 0 <= i < |keys| && keys[i] == k && CountOf(keys[..i], k) == n;
    ServedAt(routes, keys, i, m);
  }

  /** The request preceded by `m - callCount` requests to its key gets response `m`. */
  lemma ServedAt(routes: Routes, keys: seq<string>, i: nat, m: nat)
    requires i < |keys| && keys[i] in routes
    requires routes[keys[i]].callCount <= m < |routes[keys[i]].responses|
    requires CountOf(keys[..i], keys[i]) == m - routes[keys[i]].callCount
    ensures Replay(routes, keys)[i] == Matched(m)
  {
    ReplayPerKey(routes, keys, i);
  }

  /** The first request of a sequence, then the rest on the table it leaves. */
  lemma OutcomesCons(routes: Routes, k: string, rest: seq<string>, url: string)
    ensures Outcomes(routes, [k] + rest, url)
            == [Respond(routes, k, url)] + Outcomes(Advance(routes, k), rest, url)
  {
    assert ([k] + rest)[1..] == rest;
  }

  /** The table after one more request. */
  lemma {:induction false} AfterSnoc(routes: Routes, keys: seq<string>, k: string)
    ensures After(routes, keys + [k]) == Advance(After(routes, keys), k)
    decreases |keys|
  {
    if keys == [] {
      assert [] + [k] == [k];
    } else {
      assert (keys + [k])[1..] == keys[1..] + [k];
      AfterSnoc(Advance(routes, keys[0]), keys[1..], k);
    }
  }

  /** One more request observes what the table left by the earlier ones gives it. */
  lemma {:induction false} OutcomesSnoc(routes: Routes, keys: seq<string>, k: string, url: string)
    ensures Outcomes(routes, keys + [k], url)
            == Outcomes(routes, keys, url) + [Respond(After(routes, keys), k, url)]
    decreases |keys|
  {
    if keys == [] {
      assert [] + [k] == [k];
    } else {
      assert (keys + [k])[1..] == keys[1..] + [k];
      OutcomesSnoc(Advance(routes, keys[0]), keys[1..], k, url);
    }
  }

  /** Growing a prefix of the requests by one. */
  lemma PrefixStep(routes: Routes, keys: seq<string>, i: nat, url: string)
    requires i < |keys|
    ensures Outcomes(routes, keys[..i + 1], url)
            == Outcomes(routes, keys[..i], url) + [Respond(After(routes, keys[..i]), keys[i], url)]
    ensures After(routes, keys[..i + 1]) == Advance(After(routes, keys[..i]), keys[i])
  {
    assert keys[..i + 1] == keys[..i] + [keys[i]];
    OutcomesSnoc(routes, keys[..i], keys[i], url);
    AfterSnoc(routes, keys[..i], keys[i]);
  }

  /** The request keys of a sequence of requests. */
  function Keys(requests: seq<Url>): (keys: seq<string>)
    ensures |keys| == |requests|
  {
    seq(|requests|, i requires 0 <= i < |requests| => RawUrl(requests[i]))
  }

  /**
   * A sequence of requests sent one after another to a server: each outcome
   * and the final table are those of `Outcomes` and `After` on its keys, so
   * every lemma above holds of the object.
   */
  method HandleAll(server: Server, requests: seq<Url>) returns (outs: seq<Outcome>)
    modifies server
    ensures outs == Outcomes(old(server.routes), Keys(requests), server.url)
    ensures server.routes == After(old(server.routes), Keys(requests))
  {
    ghost var initial := server.routes;
    var keys := Keys(requests);
    outs := [];
    var i := 0;
    while i < |requests|
      invariant 0 <= i <= |requests|
      invariant outs == Outcomes(initial, keys[..i], server.url)
      invariant server.routes == After(initial, keys[..i])
    {
      assert keys[i] == RawUrl(requests[i]);
      PrefixStep(initial, keys, i, server.url);
      var o := server.Handle(requests[i]);
      outs := outs + [o];
      i := i + 1;
    }
    assert keys[..i] == keys;
  }

  // ---------------------------------------------------------------------------
  // The scenario of server_test.go

  /** A table with the single route `key`, whose responses are `rs`, `n` of them served. */
  function Script(rs: seq<Response>, key: string, n: nat): Routes
  {
    map[key := RespConfiguration(rs, n)]
  }

  /** A request to the scripted key: the next response or 501, and the counter moves up to `|rs|`. */
  lemma ScriptStep(rs: seq<Response>, key: string, n: nat, url: string)
    requires n <= |rs|
    ensures Respond(Script(rs, key, n), key, url)
            == if n < |rs| then Render(rs[n], url) else NotImplemented
    ensures Advance(Script(rs, key, n), key) == Script(rs, key, if n < |rs| then n + 1 else n)
  {
  }

  /** A request to any other key: 501, and nothing changes. */
  lemma ScriptOther(rs: seq<Response>, key: string, other: string, n: nat, url: string)
    requires other != key
    ensures Respond(Script(rs, key, n), other, url) == NotImplemented
    ensures Advance(Script(rs, key, n), other) == Script(rs, key, n)
  {
  }

  /** Responses shaped like those of server_test.go: two plain bodies without `$`, then a drop. */
  predicate TestShaped(rs: seq<Response>)
  {
    && |rs| == 3
    && !rs[0].dropConnection && '$' !in rs[0].body
    && !rs[1].dropConnection && '$' !in rs[1].body
    && rs[2].dropConnection
  }

  /** What the test expects: the two bodies, the dropped connection, then 501 twice. */
  function TestOutcomes(rs: seq<Response>): seq<Outcome>
    requires |rs| == 3
  {
    [Served(rs[0].statusCode, rs[0].body), Served(rs[1].statusCode, rs[1].body),
     Dropped(rs[2].statusCode), NotImplemented, NotImplemented]
  }

  lemma ShapedRenders(rs: seq<Response>, url: string)
    requires TestShaped(rs)
    ensures Render(rs[0], url) == Served(rs[0].statusCode, rs[0].body)
    ensures Render(rs[1], url) == Served(rs[1].statusCode, rs[1].body)
    ensures Render(rs[2], url) == Dropped(rs[2].statusCode)
  {
    RenderWithoutDollar(rs[0], url);
    RenderWithoutDollar(rs[1], url);
  }

  /** The last request to the scripted key and the one to the other key. */
  lemma ScenarioTail(rs: seq<Response>, key: string, other: string, url: string)
    requires TestShaped(rs) && other != key
    ensures Outcomes(Script(rs, key, 3), [key, other], url) == [NotImplemented, NotImplemented]
  {
    ScriptStep(rs, key, 3, url);
    ScriptOther(rs, key, other, 3, url);
    OutcomesCons(Script(rs, key, 3), other, [], url);
    assert [other] == [other] + [];
    OutcomesCons(Script(rs, key, 3), key, [other], url);
    assert [key, other] == [key] + [other];
  }

  /** From the third request on: the drop, then 501 twice. */
  lemma ScenarioFromDrop(rs: seq<Response>, key: string, other: string, url: string)
    requires TestShaped(rs) && other != key
    ensures Outcomes(Script(rs, key, 2), [key, key, other], url)
            == [Dropped(rs[2].statusCode), NotImplemented, NotImplemented]
  {
    ShapedRenders(rs, url);
    ScenarioTail(rs, key, other, url);
    ScriptStep(rs, key, 2, url);
    OutcomesCons(Script(rs, key, 2), key, [key, other], url);
    assert [key, key, other] == [key] + [key, other];
  }

  /** From the second request on: the second body, the drop, then 501 twice. */
  lemma ScenarioFromSecond(rs: seq<Response>, key: string, other: string, url: string)
    requires TestShaped(rs) && other != key
    ensures Outcomes(Script(rs, key, 1), [key, key, key, other], url)
            == [Served(rs[1].statusCode, rs[1].body), Dropped(rs[2].statusCode),
                NotImplemented, NotImplemented]
  {
    ShapedRenders(rs, url);
    ScenarioFromDrop(rs, key, other, url);
    ScriptStep(rs, key, 1, url);
    OutcomesCons(Script(rs, key, 1), key, [key, key, other], url);
    assert [key, key, key, other] == [key] + [key, key, other];
  }

  /**
   * Four requests to the scripted key and one to another: the two bodies, a
   * dropped connection, then 501 for the used-up key and for the unknown one.
   */
  lemma Scenario(rs: seq<Response>, key: string, other: string, url: string)
    requires TestShaped(rs) && other != key
    ensures Outcomes(Script(rs, key, 0), [key, key, key, key, other], url) == TestOutcomes(rs)
  {
    ShapedRenders(rs, url);
    ScenarioFromSecond(rs, key, other, url);
    ScriptStep(rs, key, 0, url);
    OutcomesCons(Script(rs, key, 0), key, [key, key, key, other], url);
    assert [key, key, key, key, other] == [key] + [key, key, key, other];
  }

  /** The same five requests sent to a `Server` object. */
  method RunScenario(rs: seq<Response>, request: Url, other: Url, url: string) returns (outs: seq<Outcome>)
    requires TestShaped(rs) && RawUrl(other) != RawUrl(request)
    ensures outs == TestOutcomes(rs)
  {
    var key := RawUrl(request);
    ShapedRenders(rs, url);
    var server := new Server(Script(rs, key, 0), url);
    ScriptStep(rs, key, 0, url);
    var o1 := server.Handle(request);
    ScriptStep(rs, key, 1, url);
    var o2 := server.Handle(request);
    ScriptStep(rs, key, 2, url);
    var o3 := server.Handle(request);
    ScriptStep(rs, key, 3, url);
    var o4 := server.Handle(request);
    ScriptOther(rs, key, RawUrl(other), 3, url);
    var o5 := server.Handle(other);
    outs := [o1, o2, o3, o4, o5];
  }

  const TestKey: string := "/test?v=10"

  const TestResponses: seq<Response> :=
    [Response(200, "response 1", false), Response(201, "response 2", false), Response(200, [], true)]

  /** server_test.go's table, its four requests to `/test?v=10` and its one to `/`. */
  lemma TestScenario(url: string)
    ensures Outcomes(Script(TestResponses, TestKey, 0), [TestKey, TestKey, TestKey, TestKey, "/"], url)
            == [Served(200, "response 1"), Served(201, "response 2"), Dropped(200),
                NotImplemented, NotImplemented]
  {
    Scenario(TestResponses, TestKey, "/", url);
  }

  /** The same, through the server object, with the requests as the test's client sends them. */
  method TestServer(url: string) returns (outs: seq<Outcome>)
    ensures outs == [Served(200, "response 1"), Served(201, "response 2"), Dropped(200),
                     NotImplemented, NotImplemented]
  {
    assert RawUrl(Url("/test", "v=10")) == TestKey && RawUrl(Url("/", "")) == "/";
    outs := RunScenario(TestResponses, Url("/test", "v=10"), Url("/", ""), url);
  }
}
