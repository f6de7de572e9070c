# hook-proxy: a Dafny model of the Harbor deploy hook

hook-proxy is a webhook relay. Harbor, a container registry, POSTs a push
notification to `POST /deploy`. The service checks that the notification is
a `PUSH_ARTIFACT` event with at least one resource. It builds one `Image`
record from the repository and the first resource, renders the event time in
the fixed zone UTC+8, and forwards the record as JSON to every deploy hook
listed under `deploys` in its rules, one POST per hook in list order. A hook
with a token sends that token as the `Authorization` header.

The model has five modules, one file each:

- `wrappers.dfy` (`Wrappers`): `Option` and `Result`.
- `types.dfy` (`Types`): the typed request body (`Repository`, `Resource`, `Event`, `DeployRequest`), the `Image` dataclass, its JSON body `AsDict`, and `Error`. `Error` covers the ways a request ends other than `'ok'`: an `HTTPException`, the `UnboundLocalError` in `send_hook`, or a timestamp outside the modelled range (local years 1970–9999). Above that range Python raises too; below it Python would not (see Left out).
- `timestamp.dfy` (`Timestamp`): `format_timestamp` as integer arithmetic. The offset is 8 × 3600 seconds; day numbers become proleptic Gregorian dates and fields are zero-padded. `ParseTimestamp` is its partner: the two are proved to be inverse bijections between the modelled timestamps and the `YYYY-MM-DD HH:MM:SS` strings that name a valid UTC+8 time from 1970 to 9999.
- `dispatch.dfy` (`Dispatch`): `send_hook` and `handle_image`. Outbound HTTP is a `Network` object whose `sent` log gains one `Call(url, headers, body)` per POST. `Broadcast` states what `handle_image` sends and how it ends. The methods are proved against it, and the lemmas state what it means.
- `service.dfy` (`Service`): the `deploy` handler. `Normalise` covers the decision and the `Image` construction; `Deploy` is the whole request, proved against `DeployReply`.

The rules file is an explicit, immutable `Rules` value instead of the global
`RULES`. Only its `deploys` entry is read.

Where the code differs from what one might expect of a relay like this one, the model follows the code:

- Timestamp 1573205735 might be expected to read `2019-11-08 14:15:35` in UTC+8. The code gives `2019-11-08 17:35:35`, which is 09:35:35 UTC plus eight hours (`Timestamp.SampleEvent`).
- One might expect every deploy hook to be attempted even when an earlier one fails. `handle_image` has no exception handling, so the first failing hook ends the request and later hooks get nothing (`Dispatch.BroadcastStopsAtTokenless`).
- The module docstring's sample payload has type `pushImage`. The handler only acts on `PUSH_ARTIFACT`, so that payload is answered `'ok'` and nothing is forwarded (`Service.SampleAsWrittenIgnored`).

## Model

| member | source | states |
|---|---|---|
| `Types.BodyRoundTrip` | app.py:95 | the JSON body `asdict(self)` has exactly the five Image fields and reads back as the same Image |
| `Timestamp.CivilFromDays` | app.py:75 | day n of Unix time becomes a valid Gregorian date lying exactly n days after 1970-01-01 |
| `Timestamp.CivilFromDaysInverse` | app.py:75 | every valid date from 1970 on is the date of its own day number, so days and dates correspond one to one |
| `Timestamp.LocalTimeOf` | app.py:74-75 | `fromtimestamp(ts, tz=TIME_ZONE)` gives a valid reading with a four-digit year that lies exactly ts + 8 h after the epoch (the offset of app.py:56) |
| `Timestamp.LocalTimeOfInverse` | app.py:74-75 | every valid UTC+8 reading is the reading of exactly one timestamp |
| `Timestamp.Padded` | app.py:76 | `%Y`, `%m`, `%d`, `%H`, `%M` and `%S` give exactly `width` decimal digits whose value is the field |
| `Timestamp.PaddedOfDigits` | app.py:76 | every string of digits is the zero-padded rendering of its own value |
| `Timestamp.FormatTimestamp` | app.py:74-76 | the result has the shape `DDDD-DD-DD DD:DD:DD`: 19 characters, with `-`, `-`, ` `, `:`, `:` at positions 4, 7, 10, 13, 16 and digits everywhere else |
| `Timestamp.ParseFormat` | app.py:74-76 | the rendered string reads back as the very timestamp it came from, so rendering loses nothing |
| `Timestamp.FormatParse` | app.py:74-76 | every well-formed string naming a valid time is the rendering of the timestamp it reads as |
| `Timestamp.SampleEvent` | app.py:12 | the sample event time 1573205735 renders as `2019-11-08 17:35:35` |
| `Dispatch.Network.Post` | app.py:95 | `httpx.post` appends one call with its url, headers and body to the outbound log and changes nothing else |
| `Dispatch.HeadersFor` | app.py:93-94 | there is an `Authorization` header exactly when the token is non-empty, and it carries that token |
| `Dispatch.CallsFor` | app.py:104-105 | the POSTs for a hook list are one per hook, in list order |
| `Dispatch.FirstTokenless` | app.py:104-105 | every hook before the returned index has a truthy token, and the hook at it (if any) has none |
| `Dispatch.SendHook` | app.py:92-96 | with a token: no error, and exactly one POST to the url with `Authorization: token` and the image as body; without one: UnboundHeaders and nothing sent |
| `Dispatch.HandleImage` | app.py:98-105 | the outcome and the calls appended to the log are exactly those of `Broadcast` |
| `Dispatch.SendHookIntended` | app.py:92-96 | the corrected send: one POST, with `Authorization` only when there is a token |
| `Dispatch.HandleImageIntended` | app.py:98-105 | the corrected loop: its outcome and log are those of `IntendedBroadcast` |
| `Dispatch.BroadcastOutcome` | app.py:100-105 | the broadcast fails with 500 iff no hooks are configured, with UnboundHeaders iff some hook lacks a token, and succeeds iff hooks exist and all have tokens |
| `Dispatch.NoHooksNoCalls` | app.py:100-102 | an absent or empty `deploys` gives 500 `No deploy hook url.` and no outbound call |
| `Dispatch.BroadcastOnePerHook` | app.py:104-105 | when every hook has a token, the log holds exactly one call per hook, in list order, to its url, with `Authorization: token` and the image as body |
| `Dispatch.BroadcastStopsAtTokenless` | app.py:93-95 | the first tokenless hook, at index k, ends the broadcast with UnboundHeaders after exactly the k calls for the hooks before it |
| `Dispatch.IntendedReachesEveryHook` | app.py:92-105 | the corrected broadcast sends one call to every hook, with the image as body and `Authorization` exactly for the hooks that have a token |
| `Dispatch.BroadcastAsIntendedIff` | app.py:92-105 | the code as written behaves as intended exactly when every configured hook has a token |
| `Dispatch.TokenlessHookAbortsBroadcast` | app.py:93-95 | with a tokenless first hook, the code sends nothing and fails, while the corrected code sends both POSTs |
| `Service.Deploy` | app.py:113-138 | the reply and the calls appended to the log are exactly those of `DeployReply` |
| `Service.OtherEventsIgnored` | app.py:116-118 | a type other than `PUSH_ARTIFACT` is answered `'ok'` with no outbound call, whatever the resources and rules |
| `Service.EmptyPushRejected` | app.py:123-126 | a push without resources fails with status 400 `Has not resources.` and no outbound call |
| `Service.ImageOfPush` | app.py:128-135 | the image takes name and full name from the repository and the tag from the first resource; its resource_url is `repo_full_name:tag`; its time is the rendered event time and reads back as it |
| `Service.NormaliseReadsOnly` | app.py:120-135 | the outcome depends only on the type, the repository's name and full name, whether resources exist, the first tag and the timestamp; later resources, digests and each resource's own resource_url never matter |
| `Service.UnrenderableTimeFails` | app.py:134 | a push whose time lies outside the modelled range (local years 1970–9999) fails with a 500 before any call |
| `Service.PushReachesEveryHook` | app.py:137-138 | a push with resources and token-holding hooks is answered `'ok'` after exactly one call per hook, in order, carrying the image |
| `Service.PushWithoutHooksFails` | app.py:137 | a push with resources but no deploy hooks fails with 500 `No deploy hook url.` and no outbound call |
| `Service.SampleAsWrittenIgnored` | app.py:14 | the docstring's sample, typed `pushImage`, is answered `'ok'` and forwards nothing |
| `Service.SampleImage` | app.py:128-135 | the docstring's sample as a `PUSH_ARTIFACT` yields `Image("alpine", "library/alpine", "latest", "library/alpine:latest", "2019-11-08 17:35:35")` |

## Findings

| source | as written | input that shows it | evidently intended | confidence | as-written member | corrected member |
|---|---|---|---|---|---|---|
| app.py:92-95 | `headers` is bound only when the token is truthy, so a hook without a token raises UnboundLocalError at the `httpx.post` call; `handle_image` stops there and later hooks are never called | `deploys: [{url: http://a}, {url: http://b, token: t}]` | the default `token=''` makes tokens optional: a tokenless hook should get its POST without an `Authorization` header | high; not executed | `Dispatch.TokenlessHookAbortsBroadcast` | `Dispatch.HandleImageIntended` |

The intended behaviour is proved in `Dispatch.IntendedReachesEveryHook`.
`Dispatch.BroadcastAsIntendedIff` shows that the two agree exactly when
every hook has a token. `Service.Deploy` keeps the behaviour as written.

## Left out

- HTTP routing by FastAPI and the liveness route `GET /` (app.py:27, app.py:108-110). Request parsing by Pydantic and its automatic 422 replies (app.py:30-53) are left out too: requests are already-typed `DeployRequest` values.
- Loading `rules.yaml` from disk into the global `RULES` (app.py:59-65). The rules are a `Rules` parameter that is never changed. Configurations that make Python fail while reading them are not modelled: rules that are not a mapping, a hook without a `url` key, or a token that is not a string.
- The network: `httpx.post` always succeeds and only records the call. The response is not modelled. A connection error, which would also end `handle_image` early, is not modelled either.
- Console output through `print` and `pretty_print` (app.py:68-71, app.py:99, app.py:115). It does not affect any result.
- Timestamp.FormatTimestamp: defined only for local times from 1970-01-01 to the end of year 9999. After that range Python raises, and the model answers TimestampOutOfRange as well. Before 1970 the model also answers TimestampOutOfRange, but Python would render a date there, with platform-dependent padding of `%Y` for years below 1000.
- Service.Deploy: a push whose UTC+8 time falls before 1970-01-01 (for example ts = -100000, which is 1969-12-31 04:13:20) gets Failure(TimestampOutOfRange), a 500 with no outbound call, whereas app.py renders the time, forwards the push and answers `'ok'`.
- Service.Deploy: an uncaught exception becomes FastAPI's generic 500 reply. The model returns the `Error` value, and `StatusOf` maps it to 500.
- Signature verification of build events, the per-repository tag allow-list, and build-hook forwarding are not part of app.py, and are not part of this model.
