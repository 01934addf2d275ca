# Helmet-detection dashboard: a Dafny model of its data pipeline

The system stores one record per "rider without helmet" detection and shows
the latest ones on a live dashboard. Three small pieces of it carry logic
that can be stated and proved, and this project models those three:

- **The client state projector** (`projector.dfy`, module `Projector`). The
  page gets a full snapshot on every push. For each record it recomputes the
  display `date` and `time` from `timestamp` and copies the producer's
  capitalised `Location` into `location`. It then builds the sorted list of
  distinct locations for the selector. Its view is the snapshot narrowed by
  the location filter and the date filter (an empty filter passes every row),
  cut to the first 100 rows. It also converts between the date control's
  `YYYY-MM-DD` and the display form `DD/MM/YYYY`. The page's state is
  replaced wholesale by its setters, so it is a record, and every event
  (message, selector change, date change, and the filter effect that follows
  each) is a function from one state to the next.
- **The snapshot broadcaster** (`server.dfy`, module `Server`). Each tick
  fetches every record in store order (newest first, ties by ascending
  `location`) and sends that one snapshot to each connection whose
  `readyState` is open. A failed fetch is caught, and nothing is sent in that
  tick. A new connection is sent exactly one first message: the snapshot, or
  the `{error: 'Error fetching detections'}` object when the fetch fails. The
  registry is a class over a sequence of connections, each with a ready state
  and the list of messages sent to it. A tick is one call of `Broadcast`.
- **The producer's per-minute de-duplication** (`producer.dfy`, module
  `Producer`). After inserting a detection, the producer finds the newest
  record of the same minute, location, date string and source. It then
  deletes every other record that matches the same four conditions. The
  collection is a class whose methods insert and delete. The lookup and the
  state after deletion are pure functions, and the lemmas are stated over
  those functions.

Shared helpers: `strings.dfy` holds JavaScript's `split`, decimal numerals,
and the character-by-character string order used by `Array.prototype.sort`
and by the store's ascending sort. `sequences.dfy` holds `filter`,
`slice(0, n)`, `[...new Set(s)]`, an insertion sort by any total preorder,
and subsequences. `wrappers.dfy` holds `Option`.

Each file keeps its own field names, and the model does not reconcile them.
The producer writes `Location`, and the client reads `Location`. The
server's schema and sort use lower-case `location`.

Three behaviours of the code are worth stating plainly:
- No per-connection send isolation is claimed. The broadcast's `forEach`
  has no guard around `send`, so one throwing send would end the tick.
- The client's normalisation reads the producer's capitalised `Location`,
  not a lower-case `location`.
- On connect, a failed fetch sends the `{error: ...}` object instead of a
  snapshot. The client's handler throws on it (it is not an array), so the
  page state stays as it was. `OnMessage` shows this.

The producer's collection methods look a source's location up exactly as
the code does (`LocationOfAsWritten`), so a camera source is stored and
pruned under `Unknown` (see "## Findings"). The query and the new document
take the looked-up location as a parameter, so the de-duplication lemmas
hold for the corrected lookup (`LocationOf`) just as well.

The date round trip holds for three pieces that contain neither `-` nor `/`.
A piece that contains `/` is split apart on the way back
(`SlashInPieceBreaksRoundTrip`). Every date the table itself displays is made
of digits, so it always round-trips (`DisplayDateRoundTrip`).

## Model

| member | source | states |
|---|---|---|
| `Strings.Split` | client/src/App.js:72 | `split` yields at least one piece, no piece contains the separator, and the pieces joined by the separator give back the string |
| `Strings.SplitThree` | client/src/App.js:72 | splitting three separator-free pieces joined by the separator gives back exactly those three pieces |
| `Sequences.Dedup` | client/src/App.js:37 | `[...new Set(s)]` has no repetitions and holds exactly the elements of `s` |
| `Sequences.Sort` | client/src/App.js:37 | sorting gives a permutation (same multiset) that is ordered by the given preorder and keeps distinctness |
| `Sequences.Take` | client/src/App.js:66 | `slice(0, n)` is a prefix of length `min(n, length)` |
| `Sequences.Filter` | client/src/App.js:59 | `filter` keeps every occurrence of each element satisfying the predicate (same count), drops every other one, keeps their order (a subsequence), and is no longer than its input |
| `Projector.DisplayDate` | client/src/App.js:19-20 | the display date splits at `/` into the two-digit day, the two-digit month and the year, in that order |
| `Projector.DisplayTime` | client/src/App.js:21-25 | the display time splits at `:` into the two-digit hour and the two-digit minute |
| `Projector.Normalise` | client/src/App.js:18-33 | each normalised row keeps its position; its `location` is the input's `Location`; `date`/`time` come from `timestamp`; `id`, `timestamp`, `source` and `Location` are copied |
| `Projector.NormaliseIgnoresStoredText` | client/src/App.js:19-31 | two snapshots that differ only in their stored `date`, `time` and `location` strings normalise to the same rows |
| `Projector.UniqueLocations` | client/src/App.js:37-38 | the selector's options are ascending and without repetitions, hold exactly the rows' locations, and are empty for an empty snapshot |
| `Projector.UniqueLocationsCanonical` | client/src/App.js:37 | any ascending repetition-free list of exactly the rows' locations equals the selector's list |
| `Projector.View` | client/src/App.js:55-67 | the view has at most 100 rows, and each is a snapshot row passing both filters |
| `Projector.ViewIsFirstShown` | client/src/App.js:56-66 | the view is the first 100 snapshot rows that pass the AND of both filters |
| `Projector.ViewIsSubsequence` | client/src/App.js:56-66 | the view is an order-preserving subsequence of the snapshot |
| `Projector.ViewComplete` | client/src/App.js:58-66 | when at most 100 rows pass, every passing row is shown |
| `Projector.ViewUnfiltered` | client/src/App.js:56-66 | with both filters empty the view is the snapshot's first 100 rows |
| `Projector.ControlToDisplay` | client/src/App.js:69-77 | the control-to-display conversion maps the empty value, and only it, to the empty filter |
| `Projector.DisplayToControl` | client/src/App.js:79-83 | `getFormattedDate` maps the empty filter, and only it, to the empty control value |
| `Projector.ControlRoundTrip` | client/src/App.js:69-83 | a control value of three pieces free of `-` and `/` comes back unchanged from display form |
| `Projector.DisplayRoundTrip` | client/src/App.js:69-83 | a display date of three pieces free of `-` and `/` comes back unchanged from control form |
| `Projector.DisplayDateRoundTrip` | client/src/App.js:69-83 | every date the table displays survives the trip through the date control |
| `Projector.ControlSelectsDisplayDate` | client/src/App.js:69-77 | picking a day in the control yields exactly the display date that rows of that day carry |
| `Projector.SlashInPieceBreaksRoundTrip` | client/src/App.js:69-83 | with a `/` inside the year piece, the round trip loses the text after it |
| `Projector.Refilter` | client/src/App.js:55-67 | the filter effect sets the shown rows to the view of the current snapshot and filters, and changes nothing else |
| `Projector.OnMessage` | client/src/App.js:17-38 | a non-array or unparsable message leaves the state unchanged; an array makes the snapshot exactly its normalised rows, with options and view derived from it (consistent); filters persist |
| `Projector.SetLocationFilter` | client/src/App.js:55-67 | a selector change sets the location filter, keeps the snapshot, options and date filter, and keeps the state consistent |
| `Projector.HandleDateChange` | client/src/App.js:69-77 | a date change sets the converted date filter, keeps everything else, and keeps the state consistent |
| `Projector.MountedConsistent` | client/src/App.js:4-8 | the empty state the page mounts with is consistent |
| `Projector.SnapshotReplaces` | client/src/App.js:35-38 | the state after a snapshot depends only on the snapshot and the filters, not on earlier snapshots |
| `Projector.LocationFilterRestarts` | client/src/App.js:56-60 | location filtering restarts from the full snapshot: a second choice overrides the first, and repeating a choice changes nothing |
| `Projector.DateFilterRestarts` | client/src/App.js:62-64 | date filtering restarts from the full snapshot: a second choice overrides the first, and repeating a choice changes nothing |
| `Projector.ClearLocationFilter` | client/src/App.js:58-66 | clearing the location filter shows the first 100 rows passing the date filter |
| `Projector.ClearDateFilter` | client/src/App.js:62-66 | clearing the date filter shows the first 100 rows passing the location filter |
| `Projector.DateControlStable` | client/src/App.js:108-114 | feeding back the value the date control shows leaves a well-formed date filter as it is |
| `Server.PrecedesIsTotalPreorder` | server/server.js:44 | the store order (timestamp descending, then location ascending) is total and transitive |
| `Server.GetAllDetectionsSorted` | server/server.js:42-50 | a reachable store yields all its records (same multiset), newest first with ties by ascending location; a store error is passed on to the caller |
| `Server.Receive` | server/server.js:75-77 | one send step keeps the connection's ready state, and appends the frame to its messages exactly when it is open |
| `Server.Deliver` | server/server.js:74-78 | a delivery keeps the connections and their order, and each connection is the result of its own send step |
| `Server.InitialFrame` | server/server.js:91-97 | a new connection's first message is the ordered snapshot, or the `Error fetching detections` object exactly when the fetch fails |
| `Server.Registry.constructor` | server/server.js:67 | the registry starts with no connections |
| `Server.Registry.Broadcast` | server/server.js:71-82 | a failed fetch leaves every connection as it was; a successful one delivers the snapshot to each connection as `Deliver` states |
| `Server.Registry.Connect` | server/server.js:87-97 | the new connection joins open with exactly one message, its initial frame; the others are untouched |
| `Server.Registry.BeginClose` | server/server.js:74-75 | a connection that starts closing stays registered but is no longer open, so ticks skip it |
| `Server.Registry.Disconnect` | server/server.js:99-101 | a closed connection leaves the registry, and the others keep their order and state |
| `Producer.LocationOfAsWritten` | main.py:29 | the as-written lookup yields a configured location or `Unknown` |
| `Producer.LocationOf` | main.py:29 | the corrected lookup yields a configured location or `Unknown` |
| `Producer.CameraSourceLosesName` | main.py:29 | as written, every camera source is looked up as `Unknown` under any configuration, so a name configured for its index is lost |
| `Producer.LocationOfNamesEverySource` | main.py:29 | the corrected lookup gives every configured source its name and `Unknown` otherwise, and it agrees with the written lookup on stream sources |
| `Producer.StartOfMinute` | main.py:18-19 | the start of the minute is a multiple of one minute (60000 ms) at or before `t`, less than a minute before it |
| `Producer.MinuteQuery` | main.py:18-31 | the lookup window is `[start, start + 1 minute)` around `now` with start on a minute boundary; location, date string and source are the given ones |
| `Producer.MinuteQueryMatches` | main.py:23-32 | a record matches the filter for `now` exactly when it lies in the same minute and has the same location, date string and source |
| `Producer.GetLastDetection` | main.py:17-41 | the result is none exactly when no record matches; otherwise it is a stored matching record with the greatest timestamp among matches |
| `Producer.Deduplicated` | main.py:48-61 | the deletion only removes records: every kept record was stored, and every non-matching record is kept |
| `Producer.DeduplicatedLeavesLatest` | main.py:48-61 | after the deletion, the matching records are exactly the latest one, or none when nothing matched |
| `Producer.DeduplicatedKeepsOthers` | main.py:50-64 | non-matching records are neither deleted nor reordered; with no match the collection is unchanged; the result is a subsequence of the collection |
| `Producer.DeduplicatedIdempotent` | main.py:48-61 | a second deletion with the same arguments deletes nothing |
| `Producer.NewDetection` | main.py:93-102 | the new document carries `now`, its date and time strings, the given location and the source, and matches the filter built for the same `now` |
| `Producer.InsertThenDeduplicate` | main.py:93-104 | after insert-then-delete exactly one record of the new detection's source, location, date and minute remains, and it is the new one when the new one is strictly the newest |
| `Producer.Collection.InsertOne` | main.py:103 | the document is appended under an `_id` no stored record has |
| `Producer.Collection.DeleteOldDetections` | main.py:43-64 | the collection becomes `Deduplicated` of the old one for `now`'s minute filter, with the location looked up as written, and `_id`s stay unique |
| `Producer.Collection.RecordDetection` | main.py:93-104 | the new document is built for `now` with the location looked up as written and inserted under a fresh `_id`; the collection then becomes `Deduplicated` of the old collection plus that document |

## Left out

- Serialisation: `JSON.stringify` and `JSON.parse` are not interpreted. A
  message is modelled by what parsing yields (an array of rows, another
  value, or a failure), and a frame by the value it serialises.
- Locale and time-zone formatting: the browser's parse of `timestamp` into
  its own time zone is a parameter (`local`). `DisplayDate` and
  `DisplayTime` assemble zero-padded fields from it. The year is printed in
  plain decimal, and engine-specific hour-cycle output is not modelled. On
  the producer, `strftime` in the configured time zone is the pair of
  parameters `dateOf` and `timeOf`.
- Projector.Row: a pushed object without `Location` (which would give an
  `undefined` location in the browser) is not modelled; every row has a
  string `Location`.
- Strings.Below: compares characters by code point. JavaScript's default
  sort compares UTF-16 code units, and the two differ only for characters
  outside the Basic Multilingual Plane.
- Sequences.Sort: among records equal in timestamp and location, the store
  leaves the order open. The model keeps their stored order, which is one
  admissible order; the contract states only the ordering and the
  permutation.
- Producer.GetLastDetection: among matches with equal timestamps, the store
  leaves open which one is returned. The model takes the earliest stored;
  the contract states only "a match with the greatest timestamp".
- Send failures: `send` never fails in the model. The code has no
  per-connection isolation, since a throwing `send` would abort the
  `forEach`, so none is claimed.
- Connection interleaving: the library registers a new connection before
  the handler awaits its fetch, so a tick could reach it before its first
  message. `Connect` is atomic, so that interleaving is not modelled.
- Transport states: ready-state changes come from the socket library;
  `BeginClose` and `Disconnect` stand in for them.
- The one-second timer, WebSocket transport mechanics, the Express
  `/api/detections` route (a pass-through of the same fetch), database
  connection setup and index creation, and all logging.
- Timestamps: they are whole milliseconds since the epoch, which is what
  the store keeps of a `datetime`. The microseconds the store drops are not
  modelled. Two detections of one source in the same millisecond tie, and
  then the earlier stored record is the one kept. The minute boundary is
  taken on the epoch count; the configured zone, Asia/Kolkata, is offset by
  a whole number of minutes, so its minutes start at the same instants.
- The producer's threads, one per source, run the detection step
  concurrently. The model runs it sequentially, and the dedup's correctness
  does not depend on the threading.
- Video capture, YOLO inference, frame display, the retry and sleep loops,
  and page rendering and styling.

## Findings

| source | as written | input that shows it | evidently intended | confidence | as-written member | corrected member |
|---|---|---|---|---|---|---|
| main.py:29 | `location_dict.get(source, "Unknown")`, where `location_dict` comes from `json.loads`, so every key is a string, while a camera source from the JSON source list is an `int` (the server schema types `source` as a number) | `SOURCES=[0]`, `LOCATION_DICT={"0": "Gate 1"}`: every record of camera 0 is stored, de-duplicated and shown with `Location` `Unknown` | look the source up by its text, so camera 0 is `Gate 1` | medium, not executed | `Producer.LocationOfAsWritten`, `Producer.CameraSourceLosesName` | `Producer.LocationOf`, `Producer.LocationOfNamesEverySource` |
