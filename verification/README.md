# Notification server: session registry and notify dispatcher

A Dafny model of the core of `NotificationServer` in `notification_server.py`.
Browser clients connect over Socket.IO and register a code under their session
id (sid). An HTTP `GET /notify?code=…&event=…` then emits the named event to
the first session, in the order sessions first registered, whose current code
is that code. A session that re-registers keeps its original place in that
order.

Each handler is a pure step from the registry before to the registry after.
The Socket.IO emissions and the HTTP response are returned as values.

- `optional.dfy` (`Optional`): Python's `None`-or-value and string truthiness.
- `pydict.dfy` (`PyDict`): an insertion-ordered Python `dict` of strings, as a
  sequence of pairs with distinct keys. It has `Get`, assignment (`Put`) and
  `pop` (`Pop`). Removal is also given as a filter (`Without`), which serves as
  the reference definition.
- `query.dfy` (`Query`): the request's query parameters (`Params`) in order,
  repeats allowed. `QueryGet` returns the first value, as `request.query.get`
  does. `BuildPayload` models the `data[k] = v` loop. A repeated parameter
  keeps the position where its name first appeared and carries its last value.
  `LastValue` and `Names` are the reference definitions for the payload's
  values and key order.
- `event_name.dfy` (`EventName`): `event.upper().replace(" ", "_")`.
- `session_registry.dfy` (`SessionRegistry`): `registered_codes` and the
  register, disconnect and lookup rules. The invariant `Inv` says sids are
  unique and every stored code is non-empty.
- `content_type.dfy` (`ContentType`): `ext_to_content_type` and the
  text-or-binary decision of `static_file`.
- `notification_server.dfy` (`NotificationServer`): the notify handler, the
  as-written scan loop, dispatch of every input (`Step`), traces (`Run`) and
  an end-to-end ping scenario.

Notes on fidelity:
- The registry is a sequence, not a map. Python dicts iterate in insertion
  order, and the scan returns the first match in that order. Re-registering a
  sid keeps its position. A new sid is appended.
- The notify handler rejects a request only when `code` or `event` is ABSENT.
  `code=` and `event=` pass that check. An empty code then always ends in 404,
  because `register` stores only truthy codes.
- `if found_sid:` is modelled as Python truthiness, so an empty sid would give
  404. `NotifyDelivers` assumes sids are non-empty, as transport-assigned sids are.
- The emit on line 98 is addressed to the loop variable `sid`, not to
  `found_sid`. `ScanForCode` models that loop and proves the two agree whenever
  a match is found.
- The `WELCOME` emit in `connect` has no target, so Socket.IO broadcasts it to
  every connected client. It is modelled as an emission with `to == None`. It is
  not a message to the new session only.
- A repeated query parameter is read by `get` as its first value. The payload
  carries its last value (`RepeatedNameDiverges`). Without repeats, the payload
  is exactly the query.

## Model

| member | source | states |
|---|---|---|
| PyDict.Get | notification_server.py:138 | `dict.get(k, None)` is None exactly when `k` is not a key, and otherwise returns the value paired with `k` |
| PyDict.Put | notification_server.py:141 | dict assignment keeps keys distinct and maps `k` to `v`. Every other key's lookup, entry and position is unchanged. An existing key keeps its index; a new key is appended at the end |
| PyDict.Pop | notification_server.py:127 | `pop(k, None)` returns the old value of `k`. In a dict it removes exactly that entry and keeps the rest in order (equal to the filter `Without`). Other keys' lookups are unchanged. It is a no-op when `k` is absent |
| Query.QueryGet | notification_server.py:83-84 | `request.query.get(name)` is None iff no parameter has that name; otherwise it is the value of the first parameter with that name |
| Query.BuildPayload | notification_server.py:94-96 | the payload is a dict with at most one entry per query parameter, holding for every name the last value the query gives it |
| Query.PayloadOrder | notification_server.py:94-96 | the payload has one entry per distinct query name, and its keys are in the order the names first appear in the query |
| Query.PayloadOfDistinctQuery | notification_server.py:94-96 | with no repeated parameter, the payload equals the query: same names, values and order |
| Query.FirstIsLastWhenDistinct | notification_server.py:83-96 | with no repeated parameter, the value `get` reads equals the value the payload carries |
| Query.RepeatedNameDiverges | notification_server.py:83-96 | for `code=a&event=ping&code=b`, `get` reads "a" while the payload carries "b" |
| EventName.Upper | notification_server.py:88 | `upper()` keeps the length and maps each character through ASCII upper-casing |
| EventName.ReplaceSpaces | notification_server.py:88 | `replace(" ", "_")` keeps the length, turns each space into an underscore and keeps every other character |
| EventName.Normalize | notification_server.py:88 | the normalised name has the input's length and contains no space and no lowercase ASCII letter. Each space becomes `_` and every other character is its upper-case form |
| EventName.NormalizeIdempotent | notification_server.py:88 | normalising twice equals normalising once |
| EventName.NormalizeMyEvent | notification_server.py:88 | "my event" becomes "MY_EVENT" |
| EventName.NormalizeMyEventName | notification_server.py:88 | "My Event Name" becomes "MY_EVENT_NAME" |
| ContentType.ExtToContentType | notification_server.py:158-176 | each of the seven known extensions maps to its fixed type; any other extension yields `default` |
| ContentType.OthersAreBinary | notification_server.py:166-175 | none of the types for .json, .png, .jpg, .gif and .ico contains "text" |
| ContentType.ScriptAndStyleAreText | notification_server.py:162-165 | the types for .js and .css contain "text" |
| ContentType.DefaultIsText | notification_server.py:159 | the default type "text/html" contains "text" |
| ContentType.StaticFileMode | notification_server.py:66-68 | a file is served as text iff its extension is .js or .css or not in the table; otherwise it is served as binary |
| SessionRegistry.EmptyInv | notification_server.py:22 | the registry the server starts with satisfies the invariant |
| SessionRegistry.Register | notification_server.py:133-144 | with a truthy code, the sid maps to that code. Every other sid's entry and position is unchanged. A known sid keeps its place and a new sid is appended. Without a truthy code the registry is unchanged. The invariant is preserved |
| SessionRegistry.Disconnect | notification_server.py:123-131 | removes only the sid's entry and keeps the others' lookups and relative order. It is a no-op when the sid is absent, and the invariant is preserved |
| SessionRegistry.DisconnectIdempotent | notification_server.py:127 | disconnecting twice equals disconnecting once |
| SessionRegistry.Lookup | notification_server.py:89-93 | returns a sid iff some entry has the code, and then the sid of the first such entry in registry order; None iff no entry has the code |
| SessionRegistry.LookupEmptyCode | notification_server.py:139-141 | since only truthy codes are stored, looking up "" finds nothing |
| SessionRegistry.LookupAgreesWithGet | notification_server.py:89-93 | the sid a lookup finds is registered with exactly that code |
| SessionRegistry.ReRegisterForgetsOldCode | notification_server.py:141 | after a sid re-registers with a different code, looking up its old code no longer yields that sid |
| NotificationServer.ScanForCode | notification_server.py:89-98 | the loop's `found_sid` is the first match; on a match, the loop variable `sid` used as the emit address equals it |
| NotificationServer.Notify | notification_server.py:81-101 | the answer is 400, 404 or "OK". It is 400 iff `code` or `event` is absent. Exactly one emission happens iff the answer is "OK", and it goes to a non-empty sid registered with the requested code. On 400 or 404 nothing is emitted |
| NotificationServer.NotifyMissingParameter | notification_server.py:83-87 | a request without `code` or without `event` gets 400 and emits nothing |
| NotificationServer.NotifyUnknownCode | notification_server.py:97-101 | a code no entry holds gets 404 and emits nothing |
| NotificationServer.NotifyEmptyCode | notification_server.py:85-101 | `code=` passes the presence check but, on any reachable registry, ends in 404 with nothing emitted |
| NotificationServer.NotifyDelivers | notification_server.py:88-99 | when a code is registered, the answer is "OK" with exactly one emission. It goes to the first sid holding the code, under the normalised event name, and its payload holds every query parameter's last value |
| NotificationServer.NotifyPayloadIsQuery | notification_server.py:94-98 | with no repeated parameter, the delivered payload is the query itself, including `code` and the raw un-normalised `event` |
| NotificationServer.Step | notification_server.py:118-148 | every handler preserves the invariant. Only REGISTER and disconnect change the registry. Only notify answers over HTTP. connect broadcasts one WELCOME. REGISTER, disconnect and other client events emit nothing |
| NotificationServer.RunKeepsInv | notification_server.py:118-148 | every registry reachable by any sequence of inputs from a valid one satisfies the invariant |
| NotificationServer.PingScenario | notification_server.py:81-144 | connect, register "abc123", notify `code=abc123&event=ping&msg=hi`: PING is delivered to that session with the whole query as payload and the answer is "OK". After disconnect the same request gets 404 |

## Left out

- `static_file`, `index` and `client` read files from disk. Only the
  text-or-binary decision of `static_file` is modelled. The `web.HTTPServerError()`
  after a decode failure is constructed but never raised.
- Signal handling (`sig_handler`, `stop`), `on_shutdown`, `on_cleanup`,
  `run_app`, argument parsing and logging setup are process plumbing.
- Logging: the log lines written by `connect`, `register` and `disconnect`
  are dropped. The catch-all `event` handler does nothing but log, so it is
  modelled as a step with no effect. The success/failure distinction in
  `disconnect` only selects a log message.
- HttpResponse carries the status and body text only. The `content_type`
  of the "OK" response (`text/html`) and of the error responses is not
  modelled.
- The aiohttp and Socket.IO transports, including route and handler
  registration. Emits are values, not calls.
- Concurrency and the asyncio event loop. Each handler is one atomic step.
- EventName.Upper: only ASCII letters change case. Python's `str.upper` also
  maps other letters and can lengthen a string (`"ß"` becomes `"SS"`).
- SessionRegistry.Register: the REGISTER payload is modelled as a dict of
  strings. A payload that is not a dict would raise in `data.get`. A truthy code
  that is not a string, such as a number, would be stored. Neither case is
  modelled.
- `sources/notificationservice.js` is the browser client. It only answers
  WELCOME with REGISTER when its page has a `code` parameter, so it is not part
  of this model.
