# AisHub station plugin, modelled in Dafny

The plugin polls the AisHub station service on a timer. It turns each reported
station record into a host "delta" message and hands it to the host's
message bus. This project models the data-shaping path of `index.js` and the
plugin's timer handle:

- `Json` (json.dfy): the parsed JSON values the plugin reads. It also holds
  property lookup that may give `undefined`, JavaScript truthiness, and the
  TypeError that calling `split` on a non-string throws.
- `Timestamps` (timestamps.dfy): `convertTime`, with `String.prototype.split`
  on one character modelled as `Split` and proved against its inverse `Join`.
- `Deltas` (deltas.dfy): the `mappings` table, one mapping's entry, `addValue`,
  and `getVesselDelta`. `getVesselDelta` is a method with a loop over the table,
  proved equal to the specification function `VesselDelta`.
- `Dispatch` (dispatch.dfy): `aisHubToDeltas` after `JSON.parse`. The host sink
  is the sequence of `(plugin.id, delta)` messages the method returns, in
  emission order.
- `Lifecycle` (lifecycle.dfy): the rate clamp and the request URL.
  `Timers` models the runtime's table of live intervals. `Plugin` is a class
  whose field `timeout` is the closure variable that `start` sets and `stop`
  clears.

Behaviour kept as the code has it:

- `status.ERROR` is read as a JavaScript condition. An ERROR of `""`, `0`,
  `false` or `null` does not stop the cycle.
- A stamp without a space converts to `<stamp>TundefinedZ`, because
  `tparts[1]` is `undefined`. Tokens after the second are dropped.
- If `LASTUPDATE` is absent, or is not a string, `convertTime` throws. The
  exception leaves the `forEach`, so the remaining records of that reply are
  not published. The records before it were already handed to the host.
- `getVesselDelta` never returns null, so the `delta == null` test in
  `aisHubToDeltas` never fires. The model has no null result.
- The request URL ignores the configured key and station. It always names
  station 3017 (`RequestUrl`, `RequestIgnoresCredentials`).
- `start` overwrites `timeout` without clearing a handle it already holds, so
  a second `start` leaks the first interval. `Plugin.Start` follows the code;
  the corrected `Plugin.StartClearing` is set beside it (see "## Findings").
- The runtime does not honour a delay above 2147483647 ms: it uses 1 ms
  instead (`TimerDelay`). A configured rate above 2147483 seconds therefore
  makes the plugin poll every millisecond (`PollPeriod`).

## Model

| member | source | states |
|---|---|---|
| `Timestamps.Split` | index.js:163 | `val.split(' ')` gives at least one piece, and no piece contains the separator |
| `Timestamps.JoinSplit` | index.js:163 | splitting loses nothing: joining the pieces with the separator gives back the input |
| `Timestamps.SplitNoSeparator` | index.js:163 | a string without the separator splits into itself alone |
| `Timestamps.SplitAtFirst` | index.js:163 | the first separator ends the first piece, and the rest is split independently |
| `Timestamps.ConvertTime` | index.js:161-165 | conversion succeeds exactly when the stamp is a string (undefined, null and other values throw), and the result ends in `Z` |
| `Timestamps.ConvertDateTime` | index.js:161-165 | for `D + " " + T` with no space in D or T the result is exactly `D + "T" + T + "Z"` |
| `Timestamps.ConvertDropsExtraTokens` | index.js:163-164 | tokens after the second are ignored: `D T R` converts like `D T` |
| `Timestamps.ConvertWithoutSpace` | index.js:163-164 | a stamp with no space converts to `stamp + "TundefinedZ"` without throwing |
| `Timestamps.SampleStamp` | index.js:161-165 | `"2022-01-01 00:00:00"` converts to `"2022-01-01T00:00:00Z"` |
| `Deltas.MappedEntry` | index.js:106-119 | a mapping contributes nothing exactly when its key is absent or holds the empty string; otherwise the record's value is recoverable unchanged from the entry (numeric 0 included); a root entry has path `""` and a one-key object keyed by the mapping's path, and a non-root entry keeps the mapping's path |
| `Deltas.MappedValues` | index.js:105-122 | the values list has at most one entry per mapping |
| `Deltas.MappedValuesAppend` | index.js:105-122 | mappings are processed independently: the values for a concatenated table are the values of each part, in table order |
| `Deltas.MappedValuesAt` | index.js:105-122 | each mapping's entry sits between the values of the mappings before it and after it |
| `Deltas.MappedValuesMembers` | index.js:105-122 | an entry is among the values exactly when some mapping of the table yields it |
| `Deltas.MappedValuesEmpty` | index.js:105-122 | the values list is empty exactly when no mapping yields an entry |
| `Deltas.MappedValuesFull` | index.js:105-122 | there is one value per mapping exactly when every mapping yields an entry, and then the values are the entries position by position |
| `Deltas.ShippedValues` | index.js:181-192 | with the shipped table there are at most two values, SHIPS's before DISTINCT's, each at path `""` holding a one-key object |
| `Deltas.BothCounts` | index.js:181-192 | a record with both counts yields exactly the SHIPS entry and then the DISTINCT entry, each root-wrapped |
| `Deltas.AddValue` | index.js:167-173 | pushes `{path, value}` onto the first update's values unless the value is undefined; the timestamp, the source and the other updates are unchanged |
| `Deltas.VesselDelta` | index.js:91-124 | never null: a delta exists exactly when LASTUPDATE is a string, and otherwise the TypeError of `convertTime` is the result; the delta has exactly one update, with source label `aishub`, the converted timestamp and the mapped values |
| `Deltas.GetVesselDelta` | index.js:91-124 | the step-by-step build (timestamp first, then each mapping pushed through `addValue`) gives exactly `VesselDelta` |
| `Deltas.NoCountsStillDelta` | index.js:94-104 | a record with a stamp but no usable count still yields a delta with one update and an empty values list |
| `Deltas.FullStationRecord` | index.js:91-124 | a record with stamp `D T` and both counts, whatever other fields it carries, yields one update stamped `DTTZ` with the two root-wrapped counts, SHIPS first |
| `Dispatch.AisHubToDeltas` | index.js:71-88 | a truthy `status.ERROR` emits nothing; otherwise message j carries `plugin.id` and the delta of record j, in array order, one per record; the cycle completes exactly when every record converts, and on the first record that throws, the messages are those of the records before it |
| `Lifecycle.EffectiveRate` | index.js:141-144 | the rate is 61 when absent, 0 or at most 60 and the configured rate otherwise, that is `max(rate, 61)`; always above 60 |
| `Lifecycle.RequestUrl` | index.js:131 | the request URL is the configured base URL followed by the fixed query |
| `Lifecycle.RequestIgnoresCredentials` | index.js:130-131 | two option sets with the same base URL give the same request, whatever key and station they name |
| `Lifecycle.TimerDelay` | index.js:147 | the delay the runtime uses lies in 1..2147483647 ms; it equals the requested delay exactly when that is within the range, and is 1 ms otherwise |
| `Lifecycle.PollPeriod` | index.js:141-147 | a clamped rate of at most 2147483 s polls at the rate times 1000 ms; a larger rate polls every 1 ms |
| `Lifecycle.Timers.SetInterval` | index.js:147 | a new interval is live under a handle that was not live before, with the delay the runtime makes of the requested period (`TimerDelay`); nothing else changes |
| `Lifecycle.Timers.ClearInterval` | index.js:153 | the interval with that handle is no longer live; the others are untouched |
| `Lifecycle.Plugin.constructor` | index.js:28 | a new plugin holds no timer handle |
| `Lifecycle.Plugin.Start` | index.js:141-147 | one new interval runs with the runtime's delay for the clamped rate times 1000 ms, and the plugin holds its handle; a handle already held is overwritten and its interval stays live |
| `Lifecycle.Plugin.StartClearing` | index.js:141-147 | corrected start: an interval already held is cleared first, then one new interval runs as in `Start` |
| `Lifecycle.Plugin.Stop` | index.js:150-156 | with no handle nothing changes; with a handle, exactly that interval is cleared; afterwards no handle is held |
| `Lifecycle.StartThenStop` | index.js:126-156 | from any state, start followed by stop leaves the runtime's live intervals as they were and no handle held |
| `Lifecycle.StopTwice` | index.js:150-156 | a second stop changes nothing |
| `Lifecycle.RestartLeaksInterval` | index.js:147 | start, start, stop leaves an interval of the plugin live with no handle left to clear it |
| `Lifecycle.RestartKeepsOneInterval` | index.js:141-156 | with the corrected start, start, start, stop leaves the runtime's live intervals as they were |

## Left out

- The HTTP GET and its promise continuation (index.js:17-19, 135-137) are network I/O. The model starts from the reply once it has been parsed.
- `JSON.parse` (index.js:69) is a library call. The model starts from its result as a `Report`: a status record and a sequence of station records. Other shapes map onto it as follows.
  - A status that is a number, string, boolean or array does not throw: `status.ERROR` reads as undefined and the cycle goes on. It behaves like a `Report` status without `ERROR`.
  - Array elements after index 1 are never read.
  - A station record that is a number, string, boolean or array behaves like a record without `LASTUPDATE`: it throws only when its turn comes, after the earlier records were handed to the host.
  - A null station record throws at its turn in the same way; the model's TypeError names a different message, which is not observable on the bus.
  - A reply that is not an array (other than an object whose `"0"` and `"1"` properties play the two elements' roles, which behaves like the `Report` it spells), or whose status is null or missing, throws before any record is read. So does a reply whose second element is missing or not an array while `status.ERROR` is falsy. These replies are not modelled.
  - With a truthy `status.ERROR`, the second element is never read, so a reply with one element, or with a second element of any kind, does not throw. It behaves like a `Report` with that status and any records: nothing is sent and the outcome is `Refused`.
- The immediate first `update()` in `start` and the repeated calls the interval makes (index.js:146-147) are scheduling. Two cycles can overlap, which is a concurrency matter. Only the handle and the period are kept.
- Logging through `app.debug` and `console.error` (index.js:74, 79, 86, 133) is not modelled.
- The `plugin.schema` object and the plugin name and description (index.js:32-65) are declarative data for the host.
- `numberToString` (index.js:176-179) is never called.
- Lifecycle.EffectiveRate: rates are integers here. A fractional rate such as 60.5, and NaN, are not modelled.
- JSON numbers are integers in this model (`Num`). Floating point is not modelled.
- Deltas.GetVesselDelta: the source builds the delta object and pushes into its `values` array in place. The model builds the same delta as a value. The object is fresh and local until it is returned, so no aliasing is lost.
- Keys that JavaScript would find on an object's prototype (such as `constructor`) are not modelled. The record is a plain map, and the shipped keys are `SHIPS`, `DISTINCT` and `LASTUPDATE`.

## Findings

| source | as written | input that shows it | evidently intended | confidence | as-written member | corrected member |
|---|---|---|---|---|---|---|
| index.js:147 | `start` assigns a new interval handle to `timeout` without clearing the one it holds | `start(o)`, `start(o)`, `stop()`: the first interval is still live and nothing holds its handle | a second `start` replaces the running interval, so start, start, stop leaves no interval of the plugin live | not executed | `Lifecycle.RestartLeaksInterval` | `Lifecycle.RestartKeepsOneInterval` |
