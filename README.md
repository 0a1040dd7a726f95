# tstsrv: a scripted HTTP test server, modelled in Dafny

`tstsrv` is a Go test double. Each route in its table maps an exact request
key to a fixed list of canned responses and a call counter. Each request to a
key gets the next response on its list. A key that is unknown, or whose list is
used up, gets `501 Not Implemented` with an empty body. A response either
severs the connection after its status line, or sends its body with every
`$$URI$$` replaced by the server's own base URL.

The model has three modules:

- `Strings` (strings.dfy) covers `strings.Replace(s, old, new, -1)`, the only
  `strings` call the handler makes, as the pure recursive function `ReplaceAll`.
  `Index`, `Split` and `Join` follow Go's functions of those names and serve as
  the reference definitions that specify it. The file proves:
  - `Split`/`Join` round-trip;
  - every cut is at the leftmost occurrence, so the pieces are unique even for a
    separator that overlaps itself, such as `$$URI$$`;
  - replacing is splitting and then joining.
- `Tstsrv` (server.dfy) covers server.go:
  - the datatypes `Response` and `RespConfiguration`, and the route table `Routes`;
  - the request key `RawUrl`, with its inverse `ParseKey`;
  - the decision for one request, as functions of the table: `Select`, `Advance`, `Render` and `Respond`;
  - the class `Server`. Its field `routes` is the table and its `const url` is the base URL. Its method `Handle` is the handler closure built in `New`. `Handle` is proved against `Respond` and `Advance`.
- `Sequencer` (sequencer.dfy) covers successive requests. All requests are
  serialised by the server's lock, so together they are served as some sequence
  of keys. These lemmas say what every request in such a sequence observes:
  - the per-key order, in any interleaving;
  - that no response is served twice or skipped;
  - that a used-up key stays used up;
  - the table that is left afterwards.

  `HandleAll` sends any sequence of requests through `Server.Handle` and is proved to give exactly those functions' outcomes and final table. The file also replays the scenario of server_test.go, once on the functions and once through the `Server` object.

The handler holds the server's lock for the whole request
(`defer server.lock.Unlock()`). It writes the status and the body, and closes
a dropped connection, before it releases the lock. So in the model one request
is one atomic `Handle` call.

## Model

| member | source | states |
|---|---|---|
| `Strings.Index` | server.go:84 | the result is -1 exactly when the pattern does not occur; otherwise it is the position of the leftmost occurrence |
| `Strings.Split` | server.go:84 | there is at least one piece, and no piece contains the separator |
| `Strings.ReplaceAll` | server.go:84 | a string in which the pattern does not occur is returned unchanged |
| `Strings.JoinSplit` | server.go:84 | joining the pieces of `Split` with the separator gives back the original string |
| `Strings.SplitLeftmost` | server.go:84 | every cut is at the leftmost occurrence: in each piece but the last, followed by the separator, the first occurrence of the separator is the one at the piece's end |
| `Strings.SplitUnique` | server.go:84 | any pieces that join back to the string, with every cut leftmost and no occurrence in the last piece, are exactly the pieces of `Split`. So the cuts are fixed even when the separator overlaps itself |
| `Strings.ReplaceAllByPieces` | server.go:84 | for any such pieces of the input, the result is those pieces joined with the replacement: every occurrence, left to right and without overlap, becomes the replacement and the text between is kept |
| `Strings.ReplaceAllIsJoinSplit` | server.go:84 | replacing equals cutting at every occurrence and joining with the replacement, so the text between occurrences is kept verbatim |
| `Strings.ReplaceAllWithItself` | server.go:84 | replacing the pattern by itself changes nothing |
| `Strings.ReplaceAllLength` | server.go:84 | the result length is the input length plus, per replaced occurrence, the difference between replacement and pattern lengths |
| `Strings.LacksFirstChar` | server.go:84 | a string without the pattern's first character does not contain the pattern |
| `Tstsrv.RawUrl` | server.go:107-113 | the key starts with the path. It is the path alone exactly when the raw query is empty; otherwise the path is followed by `?` and then the raw query |
| `Tstsrv.ParseKey` | server.go:107-113 | cutting a key at its first `?` gives a path that is a prefix of the key and has no `?` in it |
| `Tstsrv.RawUrlRoundTrip` | server.go:107-113 | the key is built with no normalisation: for a path without `?`, path and raw query are read back exactly |
| `Tstsrv.RawUrlInjective` | server.go:107-113 | two requests whose paths have no `?` get the same key iff their path and query are equal |
| `Tstsrv.RawUrlCollision` | server.go:107-113 | a decoded path that contains `?` gives the same key as a different path with a query |
| `Tstsrv.Select` | server.go:69-74 | a response is selected iff the key is present and its count is below the list length, and then the selected index is the count. An unknown key and a used-up key give the same `Unmatched` |
| `Tstsrv.Advance` | server.go:69-76 | after a request the table has the same keys and every response list is unchanged. Every other key's entry is unchanged. The addressed counter rises by exactly one on a match, and on no match nothing changes at all. `0 <= callCount <= len` is preserved |
| `Tstsrv.Render` | server.go:78-87 | the outcome carries the configured status. It is `Dropped` (no body) iff `DropConnection` is set; otherwise the body has `$$URI$$` replaced by the base URL |
| `Tstsrv.Respond` | server.go:69-87 | a request gets 501 with no body iff the key is absent or used up; otherwise it gets the rendering of `Responses[callCount]` |
| `Tstsrv.RenderedBody` | server.go:84-86 | a served body has exactly the configured body's text between the tokens; the tokens, and nothing else, become the base URL |
| `Tstsrv.RenderWithoutToken` | server.go:84-86 | a body without `$$URI$$` is served unchanged with its status |
| `Tstsrv.RenderWithoutDollar` | server.go:84-86 | a body without `$` is served unchanged with its status |
| `Tstsrv.Server.constructor` | server.go:58-61 | the new server holds exactly the given route table and base URL, and satisfies `Valid` (`0 <= callCount <= len`) whenever the table does, as a table with fresh counters always does |
| `Tstsrv.Server.Handle` | server.go:63-89 | one request computes its key with `RawUrl`. It answers 501, leaving the table unchanged, iff the key is absent or used up. Otherwise it renders `Responses[old callCount]` and raises that key's counter by one. Keys, response lists and every other entry are unchanged, and the bound invariant is kept |
| `Sequencer.Replay` | server.go:63-76 | the decisions for a sequence of requests: one per request, and a match always names an existing response of the requested key |
| `Sequencer.After` | server.go:69-76 | the table after a sequence of requests has the same keys |
| `Sequencer.Outcomes` | server.go:63-89 | what each request of a sequence observes: one outcome per request |
| `Sequencer.ReplayPerKey` | server.go:64-76 | in any interleaving, a request preceded by `n` earlier requests to its key gets response `callCount + n` while one is left, and 501 after |
| `Sequencer.AfterPerKey` | server.go:69-76 | after any sequence, each response list is unchanged. Each counter has advanced by the number of requests to its key, capped at the list length |
| `Sequencer.AfterBounded` | server.go:69-75 | `0 <= callCount <= len(Responses)` holds for every route after any sequence of requests |
| `Sequencer.AfterUntouched` | server.go:74-76 | a route that no request addressed keeps its entry unchanged |
| `Sequencer.OutcomesFromReplay` | server.go:69-87 | each request observes 501, or the rendering of the selected response from the initial table |
| `Sequencer.SequentialRequests` | server.go:69-87 | `N` requests to a fresh key with `k` responses: request `i` gets the rendering of `Responses[i]` for `i < k` and 501 for every later request |
| `Sequencer.InOrderAtMostOnce` | server.go:69-76 | of two matched requests to one key, the earlier gets the strictly earlier response, so no response is served twice |
| `Sequencer.ExhaustedStaysExhausted` | server.go:69-72 | once a request to a key gets 501, every later request to that key does too |
| `Sequencer.NoneSkipped` | server.go:69-76 | no response is skipped: response `m` (at or after the starting count) is served to some request for its key as soon as the key has been requested `m - callCount + 1` times, so a run that requests a key as often as it has responses left serves every one of them |
| `Sequencer.AfterSnoc` | server.go:69-76 | one more request leaves the table that `Advance` gives on the table the earlier requests left |
| `Sequencer.OutcomesSnoc` | server.go:63-89 | one more request observes `Respond` on the table the earlier requests left; the earlier outcomes are unchanged |
| `Sequencer.HandleAll` | server.go:63-89 | requests sent one after another to a `Server` object, through `Handle`, observe exactly `Outcomes` of their keys and leave exactly the table `After`, so every lemma above about sequences holds of the object |
| `Sequencer.ScriptStep` | server.go:69-76 | on a single-route table, a request to its key gets the next response, or 501 once the list is used up; the counter stops at the list length |
| `Sequencer.ScriptOther` | server.go:69-72 | a request to a key that is not in the table gets 501 and leaves the table unchanged |
| `Sequencer.Scenario` | server_test.go:43-171 | take three responses: two plain bodies without `$`, then a drop. Four requests to the key and one to another key observe the two bodies verbatim, the drop with its status, 501, and 501 |
| `Sequencer.RunScenario` | server_test.go:43-171 | sent to a `Server` object through `Handle`, the same five requests give the same five outcomes |
| `Sequencer.TestScenario` | server_test.go:43-171 | on the test's table, four requests to `/test?v=10` and one to `/` observe: 200 "response 1", 201 "response 2", 200 with a dropped connection, 501, 501 |
| `Sequencer.TestServer` | server_test.go:43-171 | the `Server` object, sent the test client's URLs `/test?v=10` (four times) and `/`, gives the same five outcomes |

## Left out

- `httptest.NewServer`, `Close` and `URL` (server.go:91-104) wrap the standard test listener. The base URL is a constructor parameter, treated as an opaque string.
- Network I/O is left out: `w.WriteHeader`, `w.Write`, and the `Hijack` + `conn.Close` pair. It appears only as the returned `Outcome`: `NotImplemented`, `Dropped(status)` or `Served(status, body)`.
- `Served(status, body)` is what the handler writes. `net/http` may still send no body: for a HEAD request, or for a status such as 204 or 304 that forbids one. That suppression is not modelled.
- Status-code checks inside `net/http` are not modelled: a code outside 100-999 makes `WriteHeader` panic, and a 1xx code other than 101 does not finish the header. The status is an opaque integer.
- `sync.Mutex` is left out: each `Handle` call is atomic, and `Sequencer` covers any serialisation order. Threads are not modelled.
- `fmt.Sprintf("%s?%s", ...)` is plain concatenation in `RawUrl`.
- `net/url` parsing is not part of this model. `Url` holds the decoded `Path` and the `RawQuery` as given. A request such as `/test?` has an empty raw query and so gets the key `/test`.
- Request methods, headers and bodies are not modelled; the handler ignores them.
- Go strings are bytes, and the model uses `seq<char>`. The token is ASCII, so byte-wise and character-wise matching agree on valid UTF-8. Invalid UTF-8 is not modelled.
- Map aliasing is not modelled. In Go the server keeps the caller's map and writes counters back into it, so the caller sees them change. In Dafny a `map` is a value: the constructor copies it.
- `callCount` is a `nat`. The field is unexported, so a caller outside the package always starts it at 0. Go's `int` cannot overflow here, because the counter never exceeds `len(Responses)`.
- Strings.ReplaceAll: requires a non-empty pattern. Go's behaviour for an empty `old` (inserting `new` around every rune) is not modelled. The handler's only call passes the seven-character `$$URI$$`.
- Strings.Split: requires a non-empty separator, for the same reason.
