# assetversions: a verified model of the version-probing core

`assetversions` is a small Rust program. It finds every historical version of a Roblox asset by asking the asset-delivery endpoint for version 1, 2, 3, … until the endpoint answers with an `errors` payload. For each version it finds, it reads the `last-modified` date of the version's first content location and records it. After every new record it rewrites `versions.json` and `versions.txt`.

This project models the sequential bookkeeping of that program in Dafny and proves properties of the model:

- **Version store** (`version_store.dfy`, module `VersionStore`): the `Version` record, the `Versions` collection as a class, and `Versions::sort_versions`. `slice::sort_by` is a stable sort. It is modelled by an insertion sort that works in place on an `array<Version>`, and that sort is proved to compute `StableSort`. `StableSort` is a function on sequences, proved to sort, to permute, to be stable, and to be the only stable sort by version.
- **Text output** (`text_output.dfy`, module `TextOutput`): the content of `versions.txt`. It is a header line `Versions of: <assetid>`, then one line `Version: <n>, Date: <date>` per record, each line ended by a newline. A parser reads this text back, and a round-trip lemma shows the text determines the collection.
- **URL builder** (`asset_url.dfy`, module `AssetUrl`): the URLs `get_asset` builds. A parser and an injectivity lemma show that different requests never share a URL.
- **Probing** (`probing.dfy`, module `Probing`): the parts of the run that carry decisions.
  - The startup gate on the latest-version metadata.
  - One probe task as a method of the run-state class `Prober`, which holds the counter, the stop flag and the store.
  - The `while !stopped` loop, as `Run`.
  - The collection a run ends with, characterised exactly (`Discover`, with its lemmas).
- `decimal.dfy` (module `Decimal`) renders numbers in decimal, as Rust's `{}` does, and reads them back. `wrappers.dfy` holds `Option` and `Result`.

The two HTTP endpoints are parameters. The metadata endpoint is a total function from a URL to a `MetadataResponse`, and the content host is a total function from a URL to a `HeadResponse`. Probes run one after another: each probe task runs to completion before the loop checks the stop flag again.

Three behaviours of the code are worth stating up front:

- When two records share a version number, both are kept, in the order they were recorded. The code pushes the new record and then stable-sorts, so nothing is replaced (`SortIsStable`, `DuplicatesKeepRecordingOrder`, `RecordingOrderShows`).
- A transport failure inside a probe task panics in a spawned tokio task. That ends only that task, because `join_all`'s results are discarded. The run goes on, with no record and the stop flag unchanged (the `Failed` outcomes).
- The counter is read and incremented under two separate lock acquisitions (see Findings).

## Model

| member | source | states |
|---|---|---|
| `VersionStore.SortByVersion` | src/main.rs:21 | sorting the array in place leaves exactly `StableSort` of its old contents |
| `VersionStore.InsertAt` | src/main.rs:21 | one insertion pass: the prefix `a[..i+1]` becomes the stable insertion of `a[i]` into `a[..i]`, and the rest of the array is unchanged |
| `VersionStore.StableSort` | src/main.rs:21 | what `sort_by` on the version number computes: the records in non-decreasing order of version, each version's records in their input order (its properties are `SortSorts`, `SortPermutes`, `SortIsStable`, `StableSortUnique`) |
| `VersionStore.Versions.constructor` | src/main.rs:74-77 | a new collection has the given asset id and no records |
| `VersionStore.Versions.Push` | src/main.rs:127-130 | `Vec::push`: the record is appended and `assetid` is unchanged |
| `VersionStore.Versions.SortVersions` | src/main.rs:19-22 | the records become `StableSort` of the old records, and `assetid` is unchanged |
| `VersionStore.WithVersion` | src/main.rs:21 | the records that carry one version number, in stored order; each of them is a record of the input |
| `VersionStore.SortSorts` | src/main.rs:20-22 | after sorting, the records are in non-decreasing order of version |
| `VersionStore.SortPermutes` | src/main.rs:19-22 | sorting keeps the same multiset of records and the same length |
| `VersionStore.SortIsStable` | src/main.rs:21 | for every version number, the records that carry it keep their relative order |
| `VersionStore.StableSortUnique` | src/main.rs:21 | any sorted arrangement that keeps each version's records in their original order equals `StableSort` |
| `VersionStore.SortOfSorted` | src/main.rs:20-22 | sorting a collection that is already sorted changes nothing |
| `VersionStore.InsertPermutes` | src/main.rs:21 | one insertion step adds exactly the new record |
| `VersionStore.InsertKeepsSorted` | src/main.rs:21 | one insertion step into a sorted sequence keeps it sorted |
| `VersionStore.InsertKeepsOrderPerVersion` | src/main.rs:21 | one insertion step puts the new record after the records of its own version and leaves every other version's records alone |
| `VersionStore.PushThenSort` | src/main.rs:127-132 | push then sort: the collection grows by exactly one; the new record is present; every old record is kept; the result is sorted whether or not the input was; on a sorted input it is an insertion |
| `VersionStore.RecordAll` | src/main.rs:127-132 | the store after each record of a recording order is pushed and the collection sorted again |
| `VersionStore.SortAfterPush` | src/main.rs:127-132 | sorting after a push onto a sorted store gives the sort of the old records followed by the new one |
| `VersionStore.RecordAllSorts` | src/main.rs:127-132 | sorting after every push leaves the same store as one stable sort of all the records in recording order |
| `VersionStore.RecordAllFromEmpty` | src/main.rs:127-132 | a store that starts empty and is sorted after every push is the stable sort of the recording order |
| `VersionStore.CompletionOrderIrrelevant` | src/main.rs:127-132 | when no version number repeats, any two recording orders of the same records sort to the same collection, and leave the same store when it is sorted after every push |
| `VersionStore.DuplicatesKeepRecordingOrder` | src/main.rs:127-132 | for any recording order, the store sorted after every push is sorted, and the records of each version are in the order they were recorded |
| `VersionStore.RecordingOrderShows` | src/main.rs:127-132 | two different records of one version: each recording order leaves the store in that order, so the two orders leave different stores |
| `TextOutput.RecordLines` | src/main.rs:144-151 | one line per record, in stored order, each `RecordLine` of its record |
| `TextOutput.HeaderLine` | src/main.rs:142 | the header line `Versions of: <assetid>`, the asset id in decimal (read back by `HeaderRoundTrip`) |
| `TextOutput.RecordLine` | src/main.rs:145-149 | the line `Version: <version>, Date: <date>` of one record (read back by `RecordLineRoundTrip`) |
| `TextOutput.RenderLines` | src/main.rs:140-151 | the header line followed by the record lines (its shape is `RenderLinesShape`) |
| `TextOutput.FileContents` | src/main.rs:140-151 | the text of `versions.txt`: every line followed by the newline `writeln!` adds (read back by `FileRoundTrip`) |
| `TextOutput.RenderLinesShape` | src/main.rs:140-151 | `|versions| + 1` lines; line 0 is `Versions of: <assetid>`; line i+1 is `Version: <version>, Date: <date>` of record i |
| `TextOutput.HeaderRoundTrip` | src/main.rs:142 | the header line reads back as the asset id |
| `TextOutput.RecordLineRoundTrip` | src/main.rs:145-149 | a record line reads back as its record |
| `TextOutput.RecordLinesRoundTrip` | src/main.rs:144-151 | the record lines read back as the records, in order |
| `TextOutput.SplitText` | src/main.rs:142-151 | lines without a newline, each written with `writeln!`, split back into the same lines |
| `TextOutput.FileRoundTrip` | src/main.rs:140-151 | when no date contains a newline, the `versions.txt` text reads back as exactly `(assetid, versions)`, so the text determines the collection |
| `Decimal.ToDecimal` | src/main.rs:31-36 | Rust's `{}` of an unsigned number: at least one digit, only digits, no leading zero |
| `Decimal.ValueOfToDecimal` | src/main.rs:31-36 | the decimal text reads back as the number |
| `Decimal.ToDecimalInjective` | src/main.rs:31-36 | two numbers have the same decimal text exactly when they are equal |
| `AssetUrl.GetAssetUrl` | src/main.rs:25-37 | the URL `get_asset` requests: latest ignores the version; a specific version without a number is the `version.unwrap()` panic, an error (its cases are `UrlCases`) |
| `AssetUrl.UrlCases` | src/main.rs:30-37 | latest gives `https://assetdelivery.roblox.com/v2/asset?id=<id>`; a specific version appends `&version=<v>`; the result is an error exactly when a non-latest URL is asked for without a version |
| `AssetUrl.VersionUrlExtendsLatest` | src/main.rs:31-36 | a version URL is the latest URL followed by `&version=<v>` |
| `AssetUrl.UrlRoundTrip` | src/main.rs:30-37 | every URL built reads back as its asset id and requested version |
| `AssetUrl.UrlInjective` | src/main.rs:30-37 | two requests for different assets or different versions never share a URL |
| `Probing.StartupCheck` | src/main.rs:53-68 | probing may begin exactly when the response was received, has no `errors` field and has a non-empty `locations` array; an `errors` payload aborts with that payload; an empty array aborts with "asset not found" |
| `Probing.FirstLocation` | src/main.rs:108-112 | a location exists exactly when `locations` is a non-empty array whose first entry has a string `location` |
| `Probing.HeaderText` | src/main.rs:118-123 | the header values `HeaderValue::to_str` accepts: every character visible ASCII or a tab |
| `Probing.ProbeOutcome` | src/main.rs:97-130 | the versions count as exhausted exactly when the metadata for this version's URL has an `errors` field; a record is made exactly when there is no `errors` field, there is a first location, and its HEAD gives a `last-modified` value that `to_str` accepts; the record carries the probed version number and that date |
| `Probing.Prober.constructor` | src/main.rs:70-77 | probing starts with `stopped = false`, the counter at 1, and an empty collection for the asset |
| `Probing.Prober.ReadCounter` | src/main.rs:91 | the claimed number is the counter's value; nothing changes |
| `Probing.Prober.IncrementCounter` | src/main.rs:93 | the counter goes up by exactly one; the stop flag is unchanged |
| `Probing.Prober.InterleavedClaims` | src/main.rs:91-93 | two tasks that both read the counter before either increments it claim the same number, and the counter moves on by two |
| `Probing.Prober.SequentialClaims` | src/main.rs:91-93 | two tasks that each read and then increment with nothing between claim consecutive, distinct numbers |
| `Probing.Prober.Probe` | src/main.rs:91-132 | one task: it reads the counter and then increments it, so the counter goes up by exactly one; the outcome is `ProbeOutcome` of the claimed number; `stopped` becomes true on exhaustion and is never reset; the store is unchanged unless a record was made, and then it is push-then-sort of that record; the store stays sorted |
| `Probing.RecordKeepsStore` | src/main.rs:127-132 | recording a record with a header-text date keeps the store sorted, with every date header text |
| `Probing.Discover` | src/main.rs:81-132 | the records a run collects with one probe at a time from a given version on: an exhausted probe ends it, a failed probe adds nothing, at most the tick budget of probes |
| `Probing.RunResult` | src/main.rs:53-155 | the outcome of a whole run: the startup abort, or the records `Discover` collects from version 1 |
| `Probing.Run` | src/main.rs:53-155 | the whole run, probing while the stop flag is clear: its result is the startup abort, or exactly the records `Discover` describes |
| `Probing.DiscoverAscending` | src/main.rs:81-132 | with one probe at a time, the records are strictly ascending by version, every version is in the probed range, and every date is header text |
| `Probing.DiscoverMembers` | src/main.rs:81-132 | a record is collected exactly when some probe in range produced it and no earlier probe found the versions exhausted |
| `Probing.ExhaustedEndsRun` | src/main.rs:81 | once probe k finds the versions exhausted, no record of version k or later is collected |
| `Probing.DiscoverFindsRun` | src/main.rs:81-132 | n probes that record, followed by one that finds an `errors` payload, yield exactly those n records in probe order |
| `Probing.RunCollects` | src/main.rs:53-151 | the run fails exactly when the startup gate aborts; otherwise, with one probe at a time, its records are strictly ascending, numbered from 1 up to the tick budget, and its `versions.txt` text reads back as exactly those records |

## Left out

- Console input and parsing of the asset id (src/main.rs:45-51): this is I/O, and `str::parse` is a library call. The asset id is a parameter.
- The HTTP GET and HEAD requests (src/main.rs:39, 114-123): these are network calls. Each endpoint is a total function from a URL to a response. A failed request is a response value (`Unreachable`, `HeadUnreachable`).
- JSON decoding by `serde_json` (src/main.rs:39): this is a foreign library. The decoded document is reduced to the `Metadata` datatype, which holds the `errors` text and the string `location` of each entry.
- `versions.json` (src/main.rs:134-138): `serde_json`'s output format is not visible. Only the records it would hold are modelled.
- File creation and writes (src/main.rs:134-151): only the text of `versions.txt` is modelled. The model does not say that the file is written after every record.
- The tokio tasks, the `Arc<Mutex<_>>` sharing, `join_all` and the 150 ms sleep (src/main.rs:70-90, 155): these exist for concurrency and timing.
  - Probes run one at a time, and each finishes before the next loop test.
  - A task spawned before `stopped` was set still runs to completion in the source. In this model no such task is pending when the flag is set.
  - The interleaving in Findings is the only concurrent schedule modelled.
- `Probing.RunCollects`: the strictly ascending order of the records holds for one probe at a time. Under the source's concurrent tasks, two probes can claim the same number (Findings), so the order is only non-decreasing (`SortSorts`).
- `Probing.DiscoverAscending`: uniqueness and contiguity of version numbers hold only for the sequential schedule. The source does not guarantee them.
- Elapsed-time measurement and the progress `println!`s (src/main.rs:58, 95, 125, 157): these are clocks and console output.
- Panics from `unwrap`, `expect` and `panic!`:
  - In `main` they become `Abort` values.
  - Inside a probe task they become `Failed` outcomes, which end only that task. No lock is held at any of those panic points.
- Failed file writes (src/main.rs:134-151): writes are taken to succeed. In the source, a failed `versions.json` write (src/main.rs:134-138) or a failed record-line `writeln!` (src/main.rs:144-151) panics while the store's lock is still held, because the guard lives until the end of that statement or loop, which poisons the lock so that later tasks panic when they record. This is not modelled.
- `Probing.Run`: the source loop has no bound. The model stops after at most `maxTicks` probes, so it says nothing about an endpoint that never returns an `errors` payload.
- Integer widths: `version` (`u32`) and `assetid` (`u64`) are unbounded `nat`s. Overflow of the counter after 2^32 - 1 probes is not modelled.

## Findings

| source | as written | input that shows it | evidently intended | confidence | as-written member | corrected member |
|---|---|---|---|---|---|---|
| src/main.rs:91-93 | a task reads `current_version` under one lock acquisition and increments it under another | two probe tasks where task B reads the counter (value c) after task A has read it and before A increments it: both probe version c, and the counter ends at c + 2, so version c + 1 is never probed | nothing runs between a task's read and its increment, so each task gets a distinct number and none is skipped; `Probing.Prober.Probe` works that way with one probe at a time, and a run's versions are then strictly ascending (`Probing.DiscoverAscending`) | medium, not executed | `Probing.Prober.InterleavedClaims` | `Probing.Prober.SequentialClaims` |
