# Face-matching data layer in Dafny

This project models the data layer of a browser face-matching application.
Under its camera, model-loading and DOM code, six pages share a small
sequential core:

- **Face database.** An IndexedDB object store `research_data` (key path `id`, auto-increment) holds one record per captured or uploaded face. The record holds a descriptor vector, landmark points, a bounding box and a timestamp.
- **Match engine.** The scan-result page and the live search page use it. Stored faces without a descriptor are dropped; on the scan-result page the current scan is dropped too. Each remaining face gets its distance to the query. The faces strictly closer than 0.7 are kept, sorted closest first and labelled with one of three confidence bands.
- **Dashboard.** It shows the number of stored faces and the five most recent entries.
- **Backup and restore.** The settings page writes a dated JSON backup of the stores, and restores stores from one by clearing them and putting every item back.
- **Redirect.** The capture and upload pages save a detected face, then open the result page with `?id=<new key>`. That page reads the key back with `parseInt`.

## Structure

| module | file | models |
|---|---|---|
| `Wrappers` | wrappers.dfy | `Option` and `Result` |
| `Seqs` | seqs.dfy | `filter` and `slice(0, n)` |
| `Sorting` | sorting.dfy | the stable `Array.prototype.sort` as a stable insertion sort |
| `Records` | records.dfy | the stored record and the detected face data |
| `ObjectStore` | store.dfy | the object store: a map from key to record plus the key generator of section 2.11 (Key generators) of the W3C Indexed Database API; `add`, `put`, `get`, `getAll`, `clear` |
| `Urls` | urls.dfy | the result-page URL, `URLSearchParams.get` and ECMAScript `parseInt` |
| `Matching` | matching.dfy | the threshold, the ranking and `getMatchStatus` |
| `ScanResult` | scan_result.dfy | `loadScanResult` and `displayMatches` |
| `SearchFace` | search_face.dfy | `loadIndexedDbDescriptors`, `performSearch`, `displaySearchResults`, `switchCamera` |
| `Home` | home.dfy | `loadDashboardData` and `populateRecentEntriesTable` |
| `IsoDate` | iso_date.dfy | `Date.prototype.toISOString` on the proleptic Gregorian calendar |
| `Settings` | settings.dfy | `handleBackupData`, the backup file name, `handleRestoreData` and `putDataIntoStore` |
| `Capture` | capture.dfy | `saveResearchData`, `handleCaptureScan` and `processUploadedFace` |

The model depends on its environment only through parameters:

- **Distance.** `faceapi.euclideanDistance` is a parameter `dist` of type `Metric`, with no property assumed.
- **Storage failures.** Opening the database or a request may fail. This is the parameter `env`, which is `Working`, `OpenFails` or `RequestFails`.
- **Clock.** The clock reading is a parameter `now`, in milliseconds since the epoch.
- **Detection.** Face detection is a parameter that is a detected face, no face, or a detector error.

`getMatchStatus` is declared twice with the same bands, in scan_result.js and search_face.js. It is modelled once, as `Matching.MatchStatus`.

Timestamps are integers. The application stores them as ISO strings, and those strings order like the instants they encode.

## Model

| member | source | states |
|---|---|---|
| Matching.MatchStatus | pages/scan_result/scan_result.js:64-72 | the band is Excellent exactly below 0.3, Good exactly on [0.3, 0.6), No Strong Match exactly from 0.6 up; both pages use this one definition |
| Matching.MatchStatusMonotone | pages/search_face/search_face.js:346-354 | a smaller distance never gets a weaker band |
| Matching.MatchStatusBoundaries | pages/search_face/search_face.js:346-354 | the bounds 0.3 and 0.6 belong to the weaker band; one distance in each band gets that band's text and colour class as the page writes them |
| Matching.RankMatches | pages/search_face/search_face.js:302-313 | the ranked list holds exactly the scored candidates under 0.7, sorted non-decreasing by distance, as a permutation of the candidates that pass the threshold |
| Matching.RankMatchesStable | pages/scan_result/scan_result.js:201 | candidates at equal distance keep their input order (the stable sort) |
| Sorting.SortBy | pages/scan_result/scan_result.js:201 | the sort result is sorted by the key and is a permutation of its input |
| Sorting.SortByStable | pages/home/home.js:97 | for every key value, the elements with that key appear in the same order before and after sorting |
| Seqs.Filter | pages/scan_result/scan_result.js:176 | the filter keeps exactly the elements satisfying the predicate and adds nothing |
| Seqs.FilterConcat | pages/search_face/search_face.js:82 | filtering distributes over concatenation, so it keeps relative order |
| Seqs.Take | pages/home/home.js:100 | `slice(0, n)` is the first min(n, length) elements |
| ObjectStore.Add | pages/face_scan/face_scan.js:50-56 | the generated key is the generator's current number, which is at least 1 and not already in use, and the generator moves one past it; the record under it is the stamped data; no other record changes; the count grows by one; a failure is ConstraintError; it always succeeds on a valid store whose generator is not exhausted; validity is preserved |
| ObjectStore.AddAfterClearIsFresh | pages/settings/settings.js:127 | a key generated after `clear()` is above every key the store held before, so keys are never reused |
| ObjectStore.Stamp | pages/face_scan/face_scan.js:48 | the saved record has the new key as id and the save time as timestamp, and holds the descriptor, landmarks and box of the detection |
| ObjectStore.Put | pages/settings/settings.js:51-56 | a put writes the record under its id, overwriting, and keeps the store valid; ids below the generator leave the generator alone |
| ObjectStore.Bump | pages/settings/settings.js:55 | after a put of an explicit key at or above the current number, the generator is min(key, 2^53) + 1; after any other put it is unchanged |
| ObjectStore.Clear | pages/settings/settings.js:127 | clearing removes every record and keeps the key generator |
| ObjectStore.Get | pages/scan_result/scan_result.js:46-61 | a record is found exactly when the id is a stored key, and it is the record stored under that id |
| ObjectStore.GetAll | pages/scan_result/scan_result.js:28-43 | `getAll` lists every stored record once, in strictly increasing key order, each under its own key |
| ObjectStore.KeysAscending | pages/settings/settings.js:32 | the keys are listed in strictly increasing order, each exactly once |
| ObjectStore.ReadAll | pages/home/home.js:24-39 | a read fails exactly when the database cannot be opened or the request fails, and otherwise returns exactly what `getAll` lists |
| ObjectStore.PutAll | pages/settings/settings.js:46-56 | `putDataIntoStore` puts the items one after the other; the store stays valid and the key generator never moves back |
| ObjectStore.PutAllContents | pages/settings/settings.js:46-67 | after a sequence of puts the store holds its old records overridden by the last item for each id |
| ObjectStore.LastWins | pages/settings/settings.js:51-56 | among items with the same id, the last one is kept |
| ObjectStore.PutAllKeepsGenerator | pages/settings/settings.js:51-56 | putting ids already below the generator leaves the generator unchanged |
| ObjectStore.GetAllRebuilds | pages/settings/settings.js:79-85 | the last-per-id map of what `getAll` returns is the store's contents |
| ObjectStore.ClearThenPutAllIdentity | pages/settings/settings.js:122-136 | on a valid store, clearing it and putting back what `getAll` returned gives the same store, generator included |
| ObjectStore.PutAllIntoEmpty | pages/settings/settings.js:132-136 | puts into an emptied store leave exactly the last item per id |
| Urls.ScanResultUrl | pages/face_scan/face_scan.js:8-14 | the URL is the bare result page exactly when the id is missing or 0 (falsy); otherwise it extends that page |
| Urls.ParseInt | pages/scan_result/scan_result.js:142 | `parseInt` gives NaN when the first character after white space is neither a digit nor a sign |
| Urls.ParseDecimal | pages/scan_result/scan_result.js:142 | `parseInt` reads back the decimal text of every natural number |
| Urls.ScanIdRoundTrip | pages/upload_face/upload_face.js:7-13 | for every non-zero id (written as plain decimal, as JavaScript does below 10^21), reading `id` from the redirect URL and applying `parseInt` gives back the id |
| Urls.NoScanIdWithoutId | pages/scan_result/scan_result.js:141-147 | a redirect without an id leaves the result page with a NaN id |
| Urls.QueryOf | pages/scan_result/scan_result.js:140 | `location.search` is cut off at the first `#`: it is empty when no `?` comes before the fragment, and otherwise it is what follows that `?`, with no `#` in it |
| Urls.FragmentIsNotQuery | pages/scan_result/scan_result.js:140 | a `?` that appears only in the fragment gives an empty query |
| Urls.ParamValue | pages/scan_result/scan_result.js:140-141 | `URLSearchParams.get` finds nothing in a single pair whose name differs |
| Urls.ParamOfIdPair | pages/scan_result/scan_result.js:140-141 | in the query `id=<digits>`, `get('id')` returns the digits |
| Urls.ScanIdOf | pages/scan_result/scan_result.js:140-141 | without an `id` parameter the page reads `parseInt(null)`, which is NaN |
| Urls.DecimalValue | pages/face_scan/face_scan.js:11 | the decimal text of a number has that number as its digit value |
| Urls.SplitAtFirst | pages/scan_result/scan_result.js:141 | splitting at the first occurrence of a character not in the prefix gives back the prefix and the rest |
| ScanResult.LoadScanResult | pages/scan_result/scan_result.js:140-151 | the page stops with NoScanId exactly when the `id` parameter parses to NaN; otherwise it reads the store with that id |
| ScanResult.ScanFor | pages/scan_result/scan_result.js:153-172 | the load fails exactly when the storage fails |
| ScanResult.Analyse | pages/scan_result/scan_result.js:168-182 | the scan is reported incomplete exactly when the current record is missing or has no descriptor; otherwise the result carries that record |
| ScanResult.OtherFaces | pages/scan_result/scan_result.js:176 | the other faces are exactly the records with a descriptor whose id differs from the current id |
| ScanResult.CurrentScanFound | pages/scan_result/scan_result.js:166-172 | with a working store, the scan is incomplete exactly when no record with a descriptor is stored under the id; otherwise the current record is the stored one |
| ScanResult.NoOtherFacesExactly | pages/scan_result/scan_result.js:176-182 | "no other faces" is reported exactly when the current scan is complete and no other stored record has a descriptor |
| ScanResult.MatchesSound | pages/scan_result/scan_result.js:186-199 | every match is a stored face other than the current scan, has a descriptor, carries that face's id, timestamp and descriptor with its distance to the current scan, and is under 0.7 |
| ScanResult.MatchesComplete | pages/scan_result/scan_result.js:186-199 | every stored face other than the current scan that has a descriptor and lies under 0.7 is listed |
| ScanResult.MatchesOrdered | pages/scan_result/scan_result.js:201 | the matches are sorted by distance, are a permutation of the kept faces, and keep store order among equal distances |
| ScanResult.DisplayMatches | pages/scan_result/scan_result.js:83-116 | the no-matches message is shown exactly for an empty list; each card has its match's id, timestamp, distance and band, and as preview the first 10 descriptor components (all of them when there are fewer) |
| SearchFace.Candidates | pages/search_face/search_face.js:82-87 | the candidates are exactly the records with a descriptor, each keeping id, timestamp and descriptor |
| SearchFace.CandidatesConcat | pages/search_face/search_face.js:82-87 | loading candidates keeps store order |
| SearchFace.LoadCandidates | pages/search_face/search_face.js:77-94 | after a read failure the candidate list stays empty; otherwise it holds the candidates of `getAll` |
| SearchFace.PerformSearch | pages/search_face/search_face.js:295-317 | nothing is compared exactly when the query is missing or there are no candidates; otherwise the results are under 0.7 and sorted closest first |
| SearchFace.SearchThreshold | pages/search_face/search_face.js:302-311 | with no id excluded, a candidate's match is listed exactly when its distance is under 0.7 |
| SearchFace.SearchFromCandidates | pages/search_face/search_face.js:302-311 | every result is the match of some candidate |
| SearchFace.SearchOrdered | pages/search_face/search_face.js:313 | the results are a permutation of the candidates under 0.7 and keep candidate order among equal distances |
| SearchFace.DisplaySearch | pages/search_face/search_face.js:320-343 | the no-strong-matches message is shown exactly for an empty match list; each card carries the match's id and band |
| SearchFace.SwitchCamera | pages/search_face/search_face.js:200-206 | switching always changes the facing mode |
| SearchFace.SwitchCameraTwice | pages/search_face/search_face.js:202 | switching twice restores the original mode |
| Home.RecentEntries | pages/home/home.js:96-100 | the recent list has min(5, n) entries in non-increasing timestamp order and is drawn from the records |
| Home.RecentEntriesAreNewest | pages/home/home.js:96-100 | no record left out of the list is newer than any shown entry |
| Home.RecentEntriesStable | pages/home/home.js:97 | among entries with equal timestamps, the table shows the first ones in store order, in that order |
| Home.RowOf | pages/home/home.js:106-109 | a row shows the id, the `type` itself when it is present and non-empty and 'N/A' otherwise, the timestamp, and the descriptor length or 'N/A' when there is no descriptor |
| Home.PopulateRecentEntries | pages/home/home.js:87-112 | the "no entries" row is shown exactly for an empty store; otherwise there are 1 to 5 rows, one per recent entry |
| Home.LoadDashboard | pages/home/home.js:43-85 | the total is the number of all stored records, with or without a descriptor; with charts that render, the error state is shown exactly when storage fails; otherwise the table is the recent-entries table of what `getAll` lists |
| Home.DashboardRowsFromStore | pages/home/home.js:87-112 | each row is the row of the record stored under its id |
| IsoDate.DateOfDayRoundTrip | pages/settings/settings.js:92 | the calendar date of a day number converts back to that day number |
| IsoDate.DateFrom | pages/settings/settings.js:92 | the computed calendar date is valid: month 1..12 and day within the month's length |
| IsoDate.ToIsoString | pages/settings/settings.js:92 | `toISOString` throws exactly for a time value beyond 8.64e15 ms |
| IsoDate.IsoDatePrefix | pages/settings/settings.js:92 | in years 0..9999 the first ten characters of the ISO string are the `YYYY-MM-DD` date |
| IsoDate.PadExact | pages/settings/settings.js:92 | a zero-padded number below 10^width has exactly width digits that read back as the number |
| IsoDate.DateTextInjective | pages/settings/settings.js:92 | in years 0..9999, different dates have different `YYYY-MM-DD` texts |
| Settings.Backup | pages/settings/settings.js:70-85 | the backup has the key `research_data` exactly when that store exists, and its value is the full `getAll` list; an open failure fails the backup |
| Settings.BackupFileName | pages/settings/settings.js:92 | the file name starts with `type_app_backup_`, and it exists exactly when the ISO string does |
| Settings.BackupFileNameDate | pages/settings/settings.js:92 | in years 0..9999 the name is `type_app_backup_` + the UTC date + `.json`, 31 characters long |
| Settings.BackupFileNamesByDay | pages/settings/settings.js:92 | two backups get the same name exactly when they are taken on the same UTC day |
| Settings.ClearPhase | pages/settings/settings.js:122-129 | every store named in the file that exists is emptied with its generator kept; the others are untouched |
| Settings.PutPhase | pages/settings/settings.js:132-136 | each existing store with an array under its name gets the array put into it; the others are untouched |
| Settings.Restore | pages/settings/settings.js:105-149 | no set of stores is created or dropped; with no file, an unreadable file, invalid JSON or a failed open, nothing changes; stores not named in the file are untouched |
| Settings.RestoreContents | pages/settings/settings.js:121-136 | after a restore, each named store holds exactly the file's items, last per id (empty for a falsy value), and its generator never moves back |
| Settings.BackupRestoreRoundTrip | pages/settings/settings.js:79-85 | restoring a backup of valid stores gives back the same database, ids and generators included |
| Capture.SaveResearchData | pages/upload_face/upload_face.js:39-69 | an open failure or a failed request leaves nothing saved; otherwise the face data is added under a fresh key, which is returned |
| Capture.SaveAndRedirect | pages/upload_face/upload_face.js:131-142 | without a face nothing is saved and there is no redirect; the redirect happens exactly when the save succeeds and goes to the result page of the new key |
| Capture.HandleCaptureScan | pages/face_scan/face_scan.js:156-192 | a capture redirects exactly when a face is detected and saved; otherwise the store is unchanged |
| Capture.ProcessUploadedFace | pages/upload_face/upload_face.js:113-150 | without an image (empty source or '#') processing stops and nothing is saved; otherwise it behaves as a capture |
| Capture.RedirectCarriesKey | pages/face_scan/face_scan.js:177-179 | a successful save redirects to a URL with `?id=`, from which the result page reads the new key |
| Capture.CaptureThenScanResult | pages/face_scan/face_scan.js:169-179 | the result page opened after a capture finds the saved face as the current scan, with the captured descriptor and the save time |

## Left out

- Face detection, landmark extraction and descriptor computation come from the face-api library. They are a parameter that yields a face, no face, or an error.
- `faceapi.euclideanDistance` is the parameter `dist`, so no metric property such as `dist(a, a) == 0` is used. The code has no descriptor-length check of its own. A descriptor-length mismatch makes the library throw, and the scan-result page then ends with its error message (pages/scan_result/scan_result.js:206-209); this path is not modelled.
- Floating point: distances are `real`, and `Float32Array` rounding is not modelled.
- Camera access, video and canvas handling, model loading, detection intervals, timers and the live-detection loop of the search page are device I/O.
- Home.LoadDashboard: the charts are drawn inside the same `try` as the read (pages/home/home.js:75-76). A chart-rendering failure therefore also ends in the error state (pages/home/home.js:78-84), even though storage works. It is not a separate case.
- Model loading can fail on the scan-result page. That error path ends like a failed read and is not a separate case.
- DOM rendering is modelled only as the shown state. `toFixed` and `toLocaleString` are presentation.
- Chart.js and the random "daily scans" and "match confidence" figures on the dashboard are placeholder data.
- The model does not cover `JSON.stringify`, `JSON.parse`, `FileReader`, `Blob` or the download anchor. A backup is an in-memory map, and the file is given to the restore already parsed or as one of its failures.
- Backup files are assumed to hold array values of records with natural-number ids. Values that are not arrays, and items without an id, are not modelled.
- Restored items are assumed to carry a timestamp. For an item without one, the dashboard comparator (pages/home/home.js:97) returns NaN; the order that gives is not modelled.
- IndexedDB is modelled without its asynchronous scheduling. The model covers transaction-level failures of a single kind: `RequestFails` during a restore means the clears commit and every put transaction fails.
- `URLSearchParams` percent-decoding and `+` decoding are not modelled. The id in a redirect URL is plain digits.
- Urls.ParseInt: values at and beyond 2^53 are not rounded to doubles. Of the Unicode space separators, only space and no-break space are skipped; the others (category Zs) are not.
- Urls.ScanResultUrl: `${dataId}` is modelled as plain decimal text of a natural number. JavaScript writes plain decimal only below 10^21 and exponent notation from there on. Generated keys are at most 2^53, so they stay in the plain range.
- `image.src` is compared as a plain string. URL resolution of the `src` property by the browser is not modelled.
