# ISS dashboard: the web client's reads of `iss_location`

The dashboard's backend appends one ISS position sample every few seconds to the
`iss_location` collection of a document store. The web client reads that
collection through two service functions:

- `getISSData` turns every document of a query snapshot into a record
  `{ id: doc.id, ...doc.data() }`.
- `getLatestISSData` scans the same kind of snapshot and keeps the document with
  the largest sort key. The key is `timestamp || createdAt?.toMillis() || 0`.
  The running maximum starts at 0 and changes only on a strictly larger key.
  With no positive key the result is `null`.

This project models those two functions. A query snapshot is a sequence of
documents in the snapshot's iteration order. A document is its id plus a field
map. A record is the field map `map["id" := doc.id] + data`. Dafny's map union
lets the right operand win, which is the override rule of the object spread.

- `documents.dfy`, module `Documents`, holds field values, documents, the
  projection to a record, and the sort key. It spells out JavaScript's falsy
  fallback: an absent field, `null` and `0` are all falsy.
- `firestore_service.dfy`, module `FirestoreService`, holds both service
  functions as methods with loops.
  - Each method is proved against specification functions: `Project` for
    `GetISSData`, and `LatestRecord` for `GetLatestISSData`. `LatestRecord` is
    the projection of the document at `LatestIndex`, and is built on `MaxKey`.
  - `MaxKey` is the maximum of 0 and the keys seen so far.
  - `LatestIndex` is characterised by `IsLatest`: the key is positive, no key is
    larger, and every earlier key is strictly smaller.
  - The loop in `GetLatestISSData` carries the scan's invariant. `latestData` is
    null exactly when `latestTimestamp` is 0. Otherwise `latestTimestamp` is the
    key of `latestData` and the maximum over the prefix.

One behaviour of the code stands out (`CreatedAtOutranksSmallerTimestamp`).
Take a document whose `timestamp` is falsy and whose `createdAt` is positive. It
sorts by the milliseconds of `createdAt`, so it outranks every document whose
truthy `timestamp` is smaller than those milliseconds. The backend copies
`timestamp` unchanged from the upstream API (backend/index.js:23, 33). Assuming
that API reports epoch seconds, every real `timestamp` is far below any recent
`createdAt` in milliseconds, so such a document would beat even later samples
(`SecondsVersusMillisExample`). That unit is an assumption about the upstream
API, not something the code shows. A `createdAt` of 0 or less gives a key of at
most 0, which never wins. The model keeps the key exactly as the code computes
it.

## Model

| member | source | states |
|---|---|---|
| `Documents.Project` | frontend/src/firebase.js:33-36 | The record has the data's fields plus `id`. Every data field keeps its value, a data field named `id` included, so it overrides the document id. Without such a field, `id` is the document's id. |
| `Documents.Key` | frontend/src/firebase.js:54 | A present non-zero `timestamp` is the key, whatever its sign. Failing that, a present `createdAt` gives its milliseconds. The key is 0 exactly when both fields are absent, null or zero. A non-zero key is always the value of one of the two fields. |
| `Documents.ProjectKeepsKey` | frontend/src/firebase.js:54-61 | The record built from a document has the same sort key as the document's data. |
| `FirestoreService.GetISSData` | frontend/src/firebase.js:28-38 | Exactly one record per document, in snapshot order. Record `i` is the projection of document `i`. |
| `FirestoreService.MaxKey` | frontend/src/firebase.js:50-57 | The running maximum is at least 0 and at least every key seen. It is either 0 or the key of some document seen. |
| `FirestoreService.LatestUnique` | frontend/src/firebase.js:56 | At most one position satisfies the "latest" characterisation, so it fixes the result. |
| `FirestoreService.LatestIndex` | frontend/src/firebase.js:49-63 | No position exactly when no key is positive. Otherwise the position has a positive key that no key exceeds, and every earlier key is strictly smaller. |
| `FirestoreService.GetLatestISSData` | frontend/src/firebase.js:46-65 | The loop returns the specified latest record. The result is `null` exactly when no key is positive, including on an empty snapshot. Otherwise the record's key is positive and at least every key. The record is the projection of one document that meets the "latest" characterisation. |
| `FirestoreService.LatestRecordKey` | frontend/src/firebase.js:52-65 | The result is `null` exactly when the running maximum stays 0. A non-null result sorts at that maximum and is one of the records `getISSData` returns for the same snapshot. |
| `FirestoreService.EarlierTieWins` | frontend/src/firebase.js:56 | Of two documents with equal keys, the later one is never returned. |
| `FirestoreService.NewerDocumentWins` | frontend/src/firebase.js:56-61 | A document appended last, whose key exceeds 0 and every earlier key, becomes the result. |
| `FirestoreService.LatestAppendNotNewer` | frontend/src/firebase.js:56 | Appending documents whose keys do not exceed the current maximum changes neither the maximum nor the result. |
| `FirestoreService.LatestIgnoresNonPositive` | frontend/src/firebase.js:49-63 | Inserting a document with a zero or negative key anywhere leaves the result unchanged. |
| `FirestoreService.NegativeTimestampNeverWins` | frontend/src/firebase.js:54-56 | A negative `timestamp` is truthy and hides any `createdAt`, so a document carrying one is never returned, in any snapshot. |
| `FirestoreService.CreatedAtOutranksSmallerTimestamp` | frontend/src/firebase.js:54-56 | A document with a falsy `timestamp` sorts by its `createdAt` milliseconds. Any document whose truthy `timestamp` is smaller than those milliseconds is then never returned. |
| `FirestoreService.SecondsVersusMillisExample` | frontend/src/firebase.js:54 | An example with timestamps in seconds, as the upstream API is assumed to report them. A document whose `timestamp` is 0, which is falsy, sorts by its `createdAt` in milliseconds. It wins over one stored a minute later that has a truthy `timestamp`. |

## Left out

- Store configuration, environment logging, app and store initialisation (frontend/src/firebase.js:6-23). These are SDK set-up and console output.
- The startup connectivity check (frontend/src/firebase.js:74-76). It is a call whose outcome is only logged.
- Fetching the snapshot with `getDocs`, and the catch blocks that log and rethrow its errors (frontend/src/firebase.js:39-42, 66-69). The model takes the snapshot as an input that is already available.
- The store's iteration order and its server-timestamp semantics. The snapshot is an arbitrary sequence, and `createdAt` is already an integer number of milliseconds.
- `timestamp` values other than integral numbers or null, and `createdAt` values other than store timestamps or null. The `Fields` subset type excludes them. The exclusion loses real JavaScript behaviour:
  - A truthy string `timestamp` becomes the key itself. A numeric string such as `"1700000000"` passes `> 0`, so it can win and become the running maximum. Later string keys are then compared with it as text, so `"9" > "1700000000"` holds. A non-numeric string compares as NaN against a number, so it cannot win while the running maximum is a number. Once a string holds the maximum, the next string is compared with it as text and can win: `"abc" > "1700000000"` holds.
  - `createdAt?.toMillis()` runs only when `timestamp` is falsy, because `||` short-circuits. A `createdAt` that is not a store timestamp throws only in that case. Beside a truthy `timestamp` it is never read.
  - The exclusion is acceptable because the backend always writes `timestamp` as the upstream API's number (backend/index.js:33) and `createdAt` as a server timestamp (backend/index.js:34). NaN is not modelled.
- Floating-point measurement fields (latitude, longitude, altitude, velocity). They are carried as opaque values and never computed with.
- All of backend/index.js. It is a network fetch, a store `add` that copies five payload fields plus a server timestamp, and a 6000 ms interval timer. None of these makes a decision to verify.
- Retention trimming, a most-recent-K query, a single-flight sampler guard and an HTTP API are described for the wider system. None of them appears in the modelled code, so none is modelled.
