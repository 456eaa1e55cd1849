# HarvestCVExporter, modelled in Dafny

HarvestCVExporter exports candidates' résumés from the Greenhouse Harvest API. It does four things:

- It pages through candidates, résumé attachments, jobs and active applications. It follows `Link: <…>; rel="next"` headers, deduplicates records by `id`, and waits out rate limits.
- It joins the four collections into a manifest: one row per application whose candidate has a résumé, with the latest résumé, newest first.
- It downloads each résumé, with retries, either into dated job folders (`YYYY/MM/<job>/<name>.<ext>`) or into one flat folder (`flat/<name>_<candidateId>.<ext>`).
- It logs every saved file as one line of an audit CSV (`resumes.csv` or `flat/resumes_flat.csv`).

The model covers that data-shaping layer, module by module:

- `LinkHeader` is the `Link` header parser. It is a comma-split, regex-based subset of RFC 8288 section 3.
- `Fetch` is the paginated fetch-with-dedup loop, with the four base URLs. The HTTP layer is a sequence of outcomes, one per attempt.
- `ResumeIndex` is the manifest builder: lookup maps, the latest-résumé loop, the row loop, and the stable newest-first sort.
- `Csv` is `csvEscape` and the audit line, with a reader for the CSV dialect of RFC 4180 section 2 and the round trips through it.
- `Naming` covers `pad2`, `sanitize`, the two extension guessers, the extension fallback chain and both path layouts.
- `Retry` is `withRetries`. The waits it would sleep are returned instead.
- `Files` is a class `Disk` over a map from paths to contents. It has `ensureCsvHeader`, `appendFile` and the body written by `downloadTo`.
- `Downloader` is the worker loop of both scripts, drained sequentially.
- `Js` and `Wrappers` hold the JavaScript semantics the rest relies on:
  - values that may be `null` or `undefined`, and truthiness;
  - `trim` and `\s`;
  - `split` and `join`;
  - ASCII `toLowerCase`;
  - `String(n)`.

The outside world is given as parameters:

- one HTTP outcome per attempt;
- the calendar date of a row's upload time;
- the pathname of its URL;
- the answers of the HEAD and download attempts, with the downloaded bytes and their SHA-256 digest.

## Model

| member | source | states |
|---|---|---|
| LinkHeader.MatchSegment | utils/parseLinkHeader.js:6-10 | a piece contributes at most its leftmost match of `<url>\s*;\s*rel="rel"`; url is non-empty without `>`, rel non-empty without `"`, both made of the piece's characters |
| LinkHeader.MatchAt | utils/parseLinkHeader.js:6 | a match at a fixed position yields a non-empty `>`-free url and a non-empty `"`-free rel |
| LinkHeader.FirstMatchAt | utils/parseLinkHeader.js:6 | the position found is the leftmost one where the pattern matches; none means no position matches |
| LinkHeader.ParseLinkHeader | utils/parseLinkHeader.js:1-13 | the loop over the comma pieces computes `Rels`; an absent or empty header gives the empty map; every key is non-empty without `"` or `,`, every url non-empty without `>` or `,` |
| LinkHeader.FillWellFormed | utils/parseLinkHeader.js:3-11 | every stored relation and url is well formed when the pieces carry no comma |
| LinkHeader.FillKeys | utils/parseLinkHeader.js:5-11 | a relation is in the map exactly when some piece's match names it |
| LinkHeader.FillLastWins | utils/parseLinkHeader.js:9 | a repeated relation keeps the url of the last piece naming it |
| LinkHeader.FillLast | utils/parseLinkHeader.js:5-11 | a stored relation comes from the last piece naming it, and holds that piece's url |
| LinkHeader.MatchLinkValue | utils/parseLinkHeader.js:6-8 | the piece `<url>; rel="rel"` yields exactly (url, rel) when url has no `>` or `,` and rel no `"` or `,` |
| LinkHeader.ParseSerialize | utils/parseLinkHeader.js:1-13 | parsing a serialised list of links (the empty list included) gives, for every relation, the url of its last occurrence |
| LinkHeader.RelKeptVerbatim | utils/parseLinkHeader.js:6-9 | `rel="next last"` is stored under `next last`, and `next` is then absent |
| Fetch.RetryDelay | utils/getAllCandidates.js:41-53 | a wait exists exactly for a 429 with a positive `retry-after` or a future `x-ratelimit-reset`, and it is positive; every other error is rethrown |
| Fetch.Records | utils/getAllCandidates.js:57 | the result lists one record per stored id, in `byId` insertion order, with pairwise distinct ids |
| Fetch.AbsorbOrder | utils/getAllCandidates.js:27-32 | absorbing appends to the insertion order exactly the ids the items introduce, each at its first non-null occurrence, as read independently from the front |
| Fetch.RecordsFirstSeen | utils/getAllCandidates.js:57 | after any number of attempts, the records are listed in the order their ids were first received |
| Fetch.NextLinkLastPiece | utils/getAllCandidates.js:38-39 | for a non-empty header, there is a next URL exactly when some comma piece's match has relation `next`, and it is the url of the last such piece |
| Fetch.AbsorbValid | utils/getAllCandidates.js:27-32 | absorbing items keeps ids unique, keyed to their own record, never null |
| Fetch.AbsorbCounts | utils/getAllCandidates.js:27-32 | unique plus duplicate counts grow by exactly the number of items with a non-null id |
| Fetch.AbsorbKeeps | utils/getAllCandidates.js:30 | a stored record is never replaced by a later occurrence |
| Fetch.AbsorbFirstWins | utils/getAllCandidates.js:30-31 | a new id is stored with the record of its first non-null occurrence |
| Fetch.AbsorbNoNewKey | utils/getAllCandidates.js:28-31 | an id becomes a key only by occurring in the items (null ids never do) |
| Fetch.AbsorbAppend | utils/getAllCandidates.js:20-32 | absorbing two pages in turn is absorbing their concatenation |
| Fetch.NonNullCountBound | utils/getAllAttachments.js:27-36 | items with a non-null id are at most all items received |
| Fetch.AbsorbPage | utils/getAllCandidates.js:27-32 | the inner loop over a page computes `Absorb` |
| Fetch.Attempt | utils/getAllCandidates.js:21-54 | one attempt advances `page`, records the URL requested, and either keeps the loop invariant with the new `nextUrl` or ends in a rethrown error that is not retryable |
| Fetch.PageLoop | utils/getAllCandidates.js:14-55 | the `while (nextUrl)` loop ends in a state satisfying `Fetched`: every attempt replayed, a finished run stopped at a page without `next` with its records in first-seen order, a failed run ended on the non-retryable error of its last attempt, a stalled run used up every outcome |
| Fetch.FetchAll | utils/getAllCandidates.js:14-57 | the final state replays every attempt (one request per attempt from the base URL, each following the previous one's `next` link or repeating after a 429, dedup of all items received); a finished run stopped at a page without `next` and returns `Records`, whose ids are the received ids in first-seen order; a failed run ends on a non-retryable error |
| Fetch.FetchTotals | utils/getAllAttachments.js:27-36 | after any number of attempts, unique plus duplicate counts equal the non-null items received and are at most `totalFetched` |
| Fetch.RetryChangesNothing | utils/getAllJobs.js:49-58 | a rate-limited attempt adds no item and leaves `byId` and `duplicates` as they were |
| Fetch.EncodeComma | utils/getAllCandidates.js:4-7 | the encoded value holds no `,`, and a value without commas is unchanged |
| Fetch.JobsQuery | utils/getAllJobs.js:12-17 | parameter names are pairwise distinct |
| Fetch.ApplicationsQuery | utils/getAllApplications.js:16-21 | parameter names are pairwise distinct |
| Fetch.JobsQueryParams | utils/getAllJobs.js:12-17 | `per_page=500`; `status` set exactly when truthy; `fields` exactly for a non-empty array, joined by `,` |
| Fetch.ApplicationsQueryParams | utils/getAllApplications.js:16-21 | `per_page=500` and `status=active` always; `fields` exactly for a non-empty array, joined by `,` |
| Fetch.GetAllCandidates | utils/getAllCandidates.js:3-57 | the page loop from the candidates base URL; a finished run returns distinct ids in the order they were first received |
| Fetch.GetAllAttachments | utils/getAllAttachments.js:3-66 | the page loop from the résumé-attachments base URL; a finished run returns distinct ids in the order they were first received |
| Fetch.GetAllJobs | utils/getAllJobs.js:9-66 | the page loop from the jobs URL built from `status` and `fields`; a finished run returns distinct ids in the order they were first received |
| Fetch.GetAllApplications | utils/getAllApplications.js:9-70 | the page loop from the active-applications URL; a finished run returns distinct ids in the order they were first received |
| ResumeIndex.IndexBy | utils/buildResumeIndex.js:15-16 | the lookup map holds exactly the ids that occur |
| ResumeIndex.IndexByLastWins | utils/buildResumeIndex.js:15-16 | a repeated id maps to its last element |
| ResumeIndex.Latest | utils/buildResumeIndex.js:18-26 | every kept attachment qualifies (résumé, truthy url, candidate id and date) and belongs to its key |
| ResumeIndex.LatestResumes | utils/buildResumeIndex.js:18-26 | the loop computes `Latest` |
| ResumeIndex.LatestKeys | utils/buildResumeIndex.js:19-25 | a candidate has a kept résumé exactly when some qualifying attachment names it |
| ResumeIndex.LatestIsNewest | utils/buildResumeIndex.js:22-25 | the kept résumé is at least as new as every qualifying one of the candidate |
| ResumeIndex.LatestIsFirstNewest | utils/buildResumeIndex.js:23 | the kept résumé is strictly newer than every earlier qualifying one, so ties keep the first |
| ResumeIndex.Kept | utils/buildResumeIndex.js:38-39 | a name part survives as at most one trimmed non-empty string |
| ResumeIndex.BuildRows | utils/buildResumeIndex.js:29-51 | the loop computes `Rows` |
| ResumeIndex.RowsOnePerApplication | utils/buildResumeIndex.js:30-51 | exactly one row per application whose candidate has a kept résumé, in order, built from that résumé, candidate and job |
| ResumeIndex.WithResumeMembers | utils/buildResumeIndex.js:33-35 | an application is kept exactly when its candidate has a kept résumé |
| ResumeIndex.JobName | utils/buildResumeIndex.js:48 | a job with a name gives that name, even an empty one; the result is empty only then |
| ResumeIndex.FullNameShape | utils/buildResumeIndex.js:37-40 | the full name is never empty: the trimmed parts joined by one space, else `Candidate <id>` |
| ResumeIndex.CompareOrder | utils/buildResumeIndex.js:53-60 | the comparator is a total preorder |
| ResumeIndex.Insert | utils/buildResumeIndex.js:53-60 | inserting adds exactly one row to the multiset |
| ResumeIndex.SortRows | utils/buildResumeIndex.js:53-60 | the sorted rows are a permutation of the input |
| ResumeIndex.InsertSorted | utils/buildResumeIndex.js:53-60 | insertion keeps the rows ordered |
| ResumeIndex.SortRowsSorted | utils/buildResumeIndex.js:53-60 | the result is ordered newest first, rows without a key last |
| ResumeIndex.InsertWithKey | utils/buildResumeIndex.js:53-60 | insertion places the row after every row with its key |
| ResumeIndex.SortRowsStable | utils/buildResumeIndex.js:53-60 | rows with equal keys keep their input order |
| ResumeIndex.RowsHaveKeys | utils/buildResumeIndex.js:20-58 | every row has a truthy `uploadedAt`, so every row has a sort key |
| ResumeIndex.BuildResumeIndex | utils/buildResumeIndex.js:9-64 | the result is the stable sort of the joined rows, ordered, and every row has an upload date |
| Js.Trim | scripts/downloadResumes.js:19 | no white space at either end; no new characters; a string without white space is unchanged |
| Js.Split | scripts/downloadResumes.js:37 | at least one part; no part holds the separator; joining restores the string |
| Js.SplitJoin | utils/parseLinkHeader.js:3 | splitting a join of separator-free parts gives the parts back |
| Js.Lower | scripts/downloadResumes.js:37 | same length, each character lowered |
| Js.DecimalRoundTrip | scripts/downloadResumes.js:11 | the decimal rendering of `n` reads back as `n` |
| Naming.Pad2Digits | scripts/downloadResumes.js:10-12 | below 100, exactly two digits denoting `n`; otherwise the plain rendering |
| Naming.RemoveForbidden | scripts/downloadResumes.js:17 | no character of ``<>:"/\|?*`` or U+0000 to U+001F is left; nothing is added; clean text is unchanged |
| Naming.RemoveForbiddenAppend | scripts/downloadResumes.js:17 | removing characters from a concatenation removes them from each part |
| Naming.RemoveForbiddenKeeps | scripts/downloadResumes.js:17 | a forbidden character is dropped and every other character is kept in place, between the cleaned text before and after it |
| Naming.Collapse | scripts/downloadResumes.js:18 | every character of the result is the replacement or a non-white-space character of the input; a leading white-space run becomes the replacement; text without white space is unchanged |
| Naming.CollapseKeeps | scripts/downloadResumes.js:18 | apart from the replacement character, the result holds exactly the non-white-space characters of the input, in order |
| Naming.CollapseSingles | scripts/downloadResumes.js:18 | no two white-space characters are adjacent afterwards |
| Naming.CleanedIsClean | scripts/downloadResumes.js:16-19 | after removal, collapsing and trimming, the text has no forbidden character, only plain spaces, never two in a row, and no leading space |
| Naming.Sanitize | scripts/downloadResumes.js:14-22 | The result has between 1 and 120 characters. |
| Naming.SanitizeShape | scripts/downloadResumes.js:14-22 | The result has no forbidden character and no white-space run, does not start with white space, is the start of the cleaned name (all of it when it fits in 120 characters), and is `unnamed` when nothing survives the cleaning. |
| Naming.SanitizeKeepsPlainNames | scripts/downloadResumes.js:14-22 | a short name without white space or forbidden characters is unchanged |
| Naming.SanitizeNoSpace | scripts/downloadResumesFlat.js:171-173 | white-space-free input stays white-space free |
| Naming.MimeExt | scripts/downloadResumes.js:38-51 | a mapped extension is non-empty and holds no `.` or `/` |
| Naming.ExtFromContentType | scripts/downloadResumes.js:35-52 | an absent or empty header gives none; a guess is a non-empty extension without `.` or `/` |
| Naming.MimeTableInverse | scripts/downloadResumes.js:38-51 | every mapped MIME type is the one its extension stands for |
| Naming.MimeTableCovers | scripts/downloadResumes.js:38-51 | each of pdf, doc, docx, rtf and txt is reached from its MIME type |
| Naming.ContentTypeNormalised | scripts/downloadResumes.js:36-37 | white space around the media type and its letter case do not change the guess |
| Naming.ContentTypeParams | scripts/downloadResumes.js:37 | parameters after `;` do not change the guess |
| Naming.Basename | scripts/downloadResumes.js:57 | the basename holds no `/` |
| Naming.ExtFromBase | scripts/downloadResumes.js:58-59 | an extension is non-empty, has no `.`, and comes from the basename |
| Naming.ExtFromPathname | scripts/downloadResumes.js:54-63 | a URL extension is non-empty, without `.` or `/`; no pathname gives none |
| Naming.ExtFromPathnameRoundTrip | scripts/downloadResumes.js:54-63 | a pathname ending in `/<stem>.<ext>` yields `ext` |
| Naming.ResolveExt | scripts/downloadResumes.js:165-177 | the extension is never empty: the URL's if any, else the content-type guess, else `pdf` (also after a failed HEAD) |
| Naming.DateFolders | scripts/downloadResumes.js:158-160 | a valid date's month folder is two digits denoting the month number |
| Naming.NestedPathSegments | scripts/downloadResumes.js:158-190 | the nested path splits at `/` into exactly year, month, job folder and `name.ext`: no segment introduces another `/` |
| Naming.SafeNameNoSpace | scripts/downloadResumesFlat.js:171-173 | the file-name stem never holds white space |
| Naming.FlatNameId | scripts/downloadResumesFlat.js:174 | the candidate id can be read back from a flat file name when it holds no `_` |
| Naming.FlatNamesDistinct | scripts/downloadResumesFlat.js:170-174 | distinct ids without `_` give distinct flat file names, whatever the names and extensions |
| Naming.FlatPathsDistinct | scripts/downloadResumesFlat.js:170-175 | distinct numeric candidate ids give distinct flat paths, whatever the names and extensions |
| Retry.Backoff | scripts/downloadResumes.js:124-128 | the wait lies between `baseMs` and `baseMs * 2^i`, and is `baseMs` for errors other than 429 and 5xx |
| Retry.OutcomeFails | scripts/downloadResumes.js:119-132 | the outcome is an error exactly when every one of the `retries + 1` calls fails |
| Retry.WithRetries | scripts/downloadResumes.js:117-133 | at most `retries + 1` calls; the result is the first success or the last error; one wait after each failed call but the last, as the back-off says; total wait at most `baseMs * (2^(calls-1) - 1)` |
| Files.WithHeader | scripts/downloadResumes.js:30-32 | the file exists afterwards and no other file appears |
| Files.Appended | scripts/downloadResumes.js:114 | the file exists afterwards and no other file appears |
| Files.Disk.EnsureCsvHeader | scripts/downloadResumesFlat.js:24-33 | the header is written only when the file is missing |
| Files.Disk.AppendFile | scripts/downloadResumes.js:114 | the text is added at the end of the file, creating it if missing |
| Files.Disk.WriteFile | scripts/downloadResumes.js:78-84 | the destination holds the body, nothing else changes |
| Csv.Quote | scripts/downloadResumes.js:94-98 | text without `"`, `,` or newline is unchanged; otherwise it is wrapped in quotes |
| Csv.DoubleQuotes | scripts/downloadResumes.js:96 | text without quotes is unchanged |
| Csv.FieldRoundTrip | scripts/downloadResumes.js:94-98 | reading an escaped field back gives the original text and the rest of the line |
| Csv.TextLineRoundTrip | scripts/downloadResumes.js:100-113 | reading a line back gives its fields |
| Csv.LineRoundTrip | scripts/downloadResumes.js:100-113 | reading an audit line back gives the text of each value |
| Csv.HeaderRoundTrip | scripts/downloadResumes.js:28-29 | reading a header back gives its column names |
| Csv.NestedLineMatchesHeader | scripts/downloadResumes.js:28-113 | the header reads as 8 columns and every line as 8 fields |
| Csv.FlatLineMatchesHeader | scripts/downloadResumesFlat.js:28-112 | the header reads as 7 columns and every line as 7 fields |
| Csv.EscapeQuotesExactly | scripts/downloadResumes.js:95-97 | an escaped value starts with a quote exactly when it needed quoting; a lone carriage return is not quoted |
| Downloader.Values | scripts/downloadResumes.js:197-208 | one value per column of the layout's header |
| Downloader.PickExtension | scripts/downloadResumes.js:165-177 | the extension chosen is the resolved one |
| Downloader.ProcessRow | scripts/downloadResumes.js:156-218 | a row counts as done exactly when its download succeeds and its audit line is appended; a downloaded body stays written when the append fails; a failed download changes nothing |
| Downloader.Save | scripts/downloadResumes.js:192-208 | the body is written to its destination, then its line is appended to the audit file unless the append failed |
| Downloader.Worker | scripts/downloadResumes.js:148-220 | draining the queue processes every row exactly once, in queue order: `completed` ends equal to the number of rows and the files are every row's outcome applied in that order |
| Downloader.DownloadAll | scripts/downloadResumes.js:140-226 | `completed` ends equal to the number of rows; the files are the header step followed by every row's outcome in the order of the sequential drain |
| Downloader.LastWriteWins | scripts/downloadResumes.js:78-86 | in the sequential drain, a destination other than the audit file ends up holding the body of the last row saved to it |
| Downloader.DownloadResumes | scripts/downloadResumes.js:140-226 | the nested run over `resumes.csv` with the 8-column header |
| Downloader.DownloadResumesFlat | scripts/downloadResumesFlat.js:139-212 | the flat run over `flat/resumes_flat.csv` with the 7-column header |
| Downloader.CsvGainsSuccessLines | scripts/downloadResumes.js:197-218 | the audit file gains exactly the lines of the logged rows, in drain order, when no destination is the audit file |
| Downloader.LinesAtMostRows | scripts/downloadResumesFlat.js:209-211 | lines logged are at most the rows processed, and as many when every row is downloaded and logged |
| Downloader.NestedDestAvoidsCsv | scripts/downloadResumes.js:184-190 | a nested destination is never the audit file |
| Downloader.FlatDestAvoidsCsv | scripts/downloadResumesFlat.js:174-175 | a flat destination with a numeric candidate id is never the audit file |
| Downloader.NestedCsvAfterRun | scripts/downloadResumes.js:140-226 | after a run the audit file is its old contents, or the header, followed by one line per logged row |
| Downloader.FlatCsvAfterRun | scripts/downloadResumesFlat.js:139-212 | the same for the flat run with numeric candidate ids |
| Downloader.AuditLineReadsBack | scripts/downloadResumes.js:100-115 | each audit line reads back as the text of its values, one per header column |
| Downloader.LocalPathColumn | scripts/downloadResumesFlat.js:187-189 | the `local_path` field is the path below the output root, `/`-separated |
| Downloader.NestedPathCollision | scripts/downloadResumes.js:179-190 | two rows differing only in candidate id share a nested destination but not a flat one |

## Left out

- Network access is not modelled. The HTTP GET and HEAD requests, response streaming and `fs.stat` are outcomes given as inputs, and so is whether `appendFile` succeeds. A failed append adds nothing: a partly written line is not modelled. Directories and `mkdir` are not modelled.
- SHA-256 is not computed. The digest comes with each download outcome. The `file_size` column is the length of the body.
- Sleeping, `setTimeout` and `Date.now()` are not modelled: `withRetries` returns its waits, and the 429 branch's clock reading is part of the outcome.
- Downloader.DownloadAll: the workers run concurrently under `Promise.all`. The `concurrency` argument (20 by default) is not modelled: the model assumes at least one worker, whereas with `concurrency` 0 no worker starts, no row is processed and `completed` stays 0. The model fixes one interleaving: a sequential drain that finishes each row before taking the next. Rows leave the queue in order, because `queue.shift()` and `++completed` run without interruption. But each worker waits on the HEAD request, the download and the append. So in the source the audit lines land in completion order. When the writes of two rows to one destination overlap, `fs.createWriteStream` opens the file for writing from the start each time, so the file may mix both bodies, and the logged `file_size` and `sha256` may not match it. The model's drain leaves the last row's body. "In order" in DownloadAll, CsvGainsSuccessLines, NestedCsvAfterRun, FlatCsvAfterRun and LastWriteWins describes the sequential drain only. Console output is left out.
- `new Date(...)` parsing is not modelled. A date field carries its text and the instant it denotes. A row's (year, month) is an input, and invalid dates are represented as `Calendar.Invalid`.
- WHATWG `URL` parsing is not modelled. The pathname is an input, and `None` stands for a URL that does not parse.
- Percent-encoding is not modelled beyond the `,` the query values carry.
- `path.join` normalisation is not modelled: `.` and `..` segments, such as a job named `..`, are not collapsed.
- `toLowerCase` and `\s` are modelled for ASCII letters and the JavaScript white-space set only. Unicode case mapping is left out.
- `slice(0, 120)` counts characters, not UTF-16 code units.
- Non-string names passed to `sanitize` are represented as strings, or as absent.
- `Number(...)` headers that are not integers (fractions, NaN) are not modelled; NaN is `None`.
- Downloader.ProcessRow: a failed download leaves the files unchanged. The source may leave a partial file at the destination.
- Fetch.FetchAll: when the scripted outcomes run out while `nextUrl` is still set, the run ends as `Stalled`. The source would keep requesting.
- Fetch.FetchAll: `totalFetched` is kept for all four fetchers, although `getAllJobs` and `getAllApplications` do not keep it.
- ResumeIndex.Latest, ResumeIndex.SortRows: every date is taken to parse, so an unparsable `created_at` or `applied_at` (an invalid `Date`, NaN) cannot be represented. In the source, `>` against NaN is false, so a later valid résumé never replaces an earlier unparsable one. The sort comparator then returns NaN, and the order is up to the engine.
- ResumeIndex.BuildResumeIndex: the in-place `rows.sort` is modelled as a stable insertion sort on values.
- Downloader.FlatCsvAfterRun: the flat destination is proved distinct from the audit file only for numeric candidate ids. With string ids it need not be: a candidate named `resumes` with id `flat` and a `.csv` résumé is saved as `flat/resumes_flat.csv`.
- `index.js` is not part of this model. It is CLI and environment wiring, and it passes the `fields` arrays in the wrong argument positions.
- `utils/generateAccessToken.js` is not part of this model: it is a single token request.
- `scripts/zipOutput.js` is not part of this model: it is a wrapper around an archive library.
- Objects keyed by `__proto__` in the relation map are not modelled: the relation map is a plain map.
