# Contact gate and popular-posts cache of the yaayes.dev worker

This project models in Dafny the two pieces of logic of the site's edge
worker (`worker/index.js`):

- the **contact-form gate** (`handleContact`): an ordered, short-circuiting
  chain of checks (honeypot `website` field, required fields, email shape),
  then a rate limit of one submission per client per hour kept in the
  worker's key-value namespace, then the hand-off to the email provider;
- the **popular-posts refresh and cache** (`updatePopularPosts`,
  `getPopularPosts`): analytics records are filtered to `/blog/` paths,
  turned into `{path, views, title}` posts, cut to the first five, and
  stored whole under `popular-posts`; the reader serves what is stored, or
  `[]`.

Files and modules:

- `wrappers.dfy` (`Wrappers`): `Option`, standing for `undefined`/`null`.
- `email.dfy` (`Email`): the regular expression `^[^\s@]+@[^\s@]+\.[^\s@]+$`
  as a predicate on strings (`MatchesEmailRegex`, with JavaScript's full
  `\s` class), the executable check the gate uses (`IsValidEmail`: no
  whitespace, exactly one `@`, a non-empty local part, a `.` inside the
  domain), and the proof that the two accept the same strings.
- `records.dfy` (`Records`): the analytics record (`Group`) and the post
  (`Post`) that the refresh reads and stores.
- `ranking.dfy` (`Ranking`): the pure filter/map/slice pipeline, including
  `String.prototype.split("/blog/")[1]` and `replace(/-/g, " ")` for titles.
- `kv.dfy` (`Kv`): the key-value namespace as a class `Store` whose field
  `entries` maps keys to a value and an optional expiry time; time is an
  explicit `now` in seconds, and an entry is returned only while
  `now < expiry`.
- `contact.dfy` (`Contact`): the gate as pure functions (`ContactOutcome`,
  `ContactEntries`) and as the method `HandleContact`, which calls
  `Store.Get` and `Store.Put` in the source's order and is proved equal to
  them.
- `cache.dfy` (`PopularCache`): `UpdatePopularPosts` and `GetPopularPosts`
  on the store, and the lemmas that tie the two pipelines together (they
  never touch each other's keys).

The email dispatcher and the analytics API are inputs: `HandleContact`
takes whether the provider accepted the message, and `UpdatePopularPosts`
takes the response as `NotOk` or `Ok(records)`, where the records are
`None` when the body lacks the
`data.viewer.zones[0].httpRequestsAdaptiveGroups` path.

The model follows the code as written, including where one might expect
otherwise:

- The code keeps every path that starts with `/blog/`. This includes `/blog/`
  itself (title "Unknown") and `/blog/tag/...` paths. `Ranking.RefreshExample`
  shows this on five records.
- The code does not re-sort the posts. They keep the order of the analytics
  response, which the query asks to be by requests, descending.
- The query asks for 10 records (`limit: 10`, worker/index.js:169).
  Nothing in the transform depends on that number, so the model takes a
  record list of any length.
- An ok response whose body carries GraphQL `errors` and no data is not
  rejected. It reads as `[]`, and `[]` replaces the cached list
  (`PopularCache.ReadAfterRefresh`).
- A failure of the key-value store is not turned into a distinct error.
  It propagates as an exception, and where it ends depends on the caller:
  - In `handleContact` (the get and put at lines 82 and 95, outside the
    `try` at line 98) and in `getPopularPosts` (line 149), the router's
    `catch` turns it into its generic 500 response.
  - `updatePopularPosts` is called only from the `scheduled` handler
    (line 42). There, a failing put at line 215 is caught and logged (lines
    43-45), and no HTTP response is produced.

## Model

| member | source | states |
|---|---|---|
| Email.MatchesEmailRegex | worker/index.js:71-72 | the language of `^[^\s@]+@[^\s@]+\.[^\s@]+$`: three non-empty `[^\s@]` runs around an `@` and a `.`, so a match has at least five characters and begins and ends in the class; `EmailCheckIsRegex` ties it to the gate's check |
| Email.IsSpace | worker/index.js:71 | JavaScript's `\s`: space, tab, line feed and carriage return are whitespace, and no visible ASCII character (`!` to `~`) is |
| Email.InClass | worker/index.js:71 | the class `[^\s@]`: `@` and space are outside it, lower-case letters inside |
| Email.IsValidEmail | worker/index.js:71-72 | the check the gate runs; an accepted string has at least five characters, contains `@` and does not begin with it; `EmailCheckIsRegex` proves it accepts exactly the pattern's strings |
| Email.EmailCheckIsRegex | worker/index.js:70-77 | the gate's email check accepts a string if and only if it matches `^[^\s@]+@[^\s@]+\.[^\s@]+$` |
| Email.CheckedEmailMatchesRegex | worker/index.js:71-72 | a string with no whitespace, one `@` after a non-empty local part and an inner `.` in the domain matches the pattern |
| Email.RegexEmailPassesCheck | worker/index.js:71-72 | a string matching the pattern has no whitespace, exactly one `@`, a non-empty local part and a domain with a `.` that is neither first nor last |
| Email.IndexOfChar | worker/index.js:71 | the index found is that of the first `@` (or the length when there is none) |
| Email.AcceptsSimpleAddress | worker/index.js:71-72 | `a@b.co` matches the pattern and passes the check |
| Email.RejectsMalformedAddresses | worker/index.js:71-77 | `a@b`, `a@@b.co`, `a b@c.co` and the empty string do not match |
| Ranking.HasPrefix | worker/index.js:203 | `startsWith`: the string is at least as long as the prefix and agrees with it character by character |
| Ranking.IsBlogPath | worker/index.js:203 | the filter keeps a path exactly when `/blog/` occurs at its start |
| Ranking.BlogSegment | worker/index.js:209 | `split("/blog/")[1]`: None exactly when `/blog/` does not occur; otherwise a segment, no longer than what follows the prefix, that itself contains no `/blog/`; `BlogSegmentAt` pins its value for every path |
| Ranking.BlogSegmentAt | worker/index.js:209 | for every path whose first `/blog/` is at `i`, the segment is the text from just after it up to the next `/blog/` or the end |
| Ranking.Title | worker/index.js:207-210 | a title is never empty and never contains `-`, and is "Unknown" when the segment is missing or empty; `TitleOfBlogPath` pins its value for every blog path |
| Ranking.TitleOfBlogPath | worker/index.js:207-210 | for every `/blog/` path, the title is the text between the leading `/blog/` and the next `/blog/` (or the end) with dashes as spaces, or "Unknown" when that text is empty |
| Ranking.ToPost | worker/index.js:204-211 | a record becomes a post with its path and request count copied and a non-empty title without `-` |
| Ranking.PopularPosts | worker/index.js:202-212 | the refresh output has at most five posts, no more than the input records, all with `/blog/` paths; `PopularPostsKeepInputOrder` and `PopularPostsHoldOnlyFirstFive` prove it is exactly the first five qualifying records in input order |
| Ranking.IndexOf | worker/index.js:209 | the separator search returns the first occurrence, and None only when there is none |
| Ranking.DashesToSpaces | worker/index.js:210 | every `-` becomes a space and every other character is kept, length unchanged |
| Ranking.BlogGroups | worker/index.js:203 | the filtered list is no longer than the input and holds only records with a `/blog/` path; `BlogRecordRank` and `BlogGroupsOrigin` prove it is exactly the qualifying records in input order |
| Ranking.ToPosts | worker/index.js:204-211 | the map turns the k-th record into the k-th post, one for one |
| Ranking.BlogGroupsAppend | worker/index.js:202-203 | filtering a concatenation is the concatenation of the filtered parts (order is kept) |
| Ranking.BlogRecordRank | worker/index.js:202-203 | a qualifying record sits in the filtered list at the index equal to the number of qualifying records before it |
| Ranking.BlogPrefixCount | worker/index.js:203 | the number of qualifying records in a prefix counts the first record, then the rest of the prefix |
| Ranking.BlogGroupsOrigin | worker/index.js:202-203 | every entry of the filtered list is a qualifying input record, sitting at that record's rank among qualifying records: the filter adds nothing and reorders nothing |
| Ranking.PopularPostAt | worker/index.js:204-212 | the k-th post of the output, for k below five, is the post of the k-th qualifying record |
| Ranking.PopularPostsSizeAndPaths | worker/index.js:202-212 | the refresh output has min(5, number of qualifying records) posts, each with a `/blog/` path |
| Ranking.PopularPostsKeepInputOrder | worker/index.js:202-212 | a qualifying record with fewer than five qualifying records before it appears, path and views copied and title derived, at its rank: the output is the first five qualifying records in input order |
| Ranking.PopularPostsHoldOnlyFirstFive | worker/index.js:202-212 | every output post is the post of a qualifying input record, path and views copied, at that record's rank; with `PopularPostsKeepInputOrder` the output is exactly the first five qualifying records in input order |
| Ranking.TitleHasNoDash | worker/index.js:207-210 | no title contains `-` |
| Ranking.TitleOfSimpleBlogPath | worker/index.js:207-210 | for a `/blog/` path without a second `/blog/`, the title is the rest with dashes as spaces, or "Unknown" when the rest is empty |
| Ranking.TitleReplacesDashes | worker/index.js:207-210 | `/blog/my-post` is titled "my post" |
| Ranking.TitleOfBarePrefix | worker/index.js:207-210 | `/blog/` is titled "Unknown" |
| Ranking.TitleOfTagPath | worker/index.js:207-210 | `/blog/tag/x` is titled "tag/x" |
| Ranking.TitleStopsAtSecondPrefix | worker/index.js:209 | `/blog/a/blog/b` is titled "a" |
| Ranking.TitleOfPlainPath | worker/index.js:207-210 | `/blog/other` is titled "other" |
| Ranking.BlogGroupsCons | worker/index.js:203 | the filter decides each record by its own path alone |
| Ranking.DashesToSpacesExample | worker/index.js:210 | `my-post` with dashes replaced is `my post` |
| Ranking.FilterDropsFourth | worker/index.js:203 | of five records, only the one without a `/blog/` prefix is dropped and the rest keep their order |
| Ranking.ToPostsOfFour | worker/index.js:204-211 | four records map to their four posts in the same order |
| Ranking.ExampleFilter | worker/index.js:202-203 | of five sample records only `/about` is dropped |
| Ranking.RefreshExample | worker/index.js:202-212 | the five sample records give four posts in input order, including `/blog/` ("Unknown") and `/blog/tag/x` |
| Kv.Truthy | worker/index.js:84 | a value read back is falsy exactly when it is the empty string |
| Kv.IsLive | worker/index.js:82-95 | an entry without expiry is always readable; one with an expiry time is readable exactly before it |
| Kv.Lookup | worker/index.js:82 | a get returns a value exactly when the key holds a live entry, and then the stored value |
| Kv.Stamp | worker/index.js:95 | a put with `expirationTtl` keeps the value and makes the entry readable exactly until now + TTL; without a TTL it never expires |
| Kv.LookupAfterPut | worker/index.js:94-95 | after a put the key reads as the new value until its TTL runs out and then as absent; other keys read as before |
| Kv.Store.Get | worker/index.js:82 | a get returns the stored value exactly when the key holds a live entry |
| Kv.Store.Put | worker/index.js:95 | a put replaces the one key's entry with the value and its expiry time and leaves every other key alone |
| Contact.Screen | worker/index.js:54-77 | the three checks pass exactly when the honeypot is empty, the three fields are filled and the email passes the check; any failure is a 400; `HoneypotAlwaysSpam`, `MissingFieldsBeforeEmailShape` and `MalformedEmailRejected` fix which failure wins |
| Contact.ClientId | worker/index.js:80 | the client identifier is never empty; it is the `CF-Connecting-IP` header whenever that is present and non-empty, and "unknown" otherwise; `DistinctClientsKeepOwnWindows` and `HeaderlessClientsShareBucket` show the buckets |
| Contact.RateLimitKey | worker/index.js:81 | the key is `ratelimit:` followed by the client identifier |
| Contact.Status | worker/index.js:56-143 | only a sent message answers 200, every other outcome is a 4xx or 5xx status, and 429 means rate-limited |
| Contact.ErrorText | worker/index.js:56-143 | every outcome but a sent message carries a non-empty `error` text |
| Contact.Throttled | worker/index.js:82-84 | a client is throttled exactly when its `ratelimit:` key holds a live entry whose value is not the empty string |
| Contact.ContactOutcome | worker/index.js:50-145 | the outcome is a 400 exactly when a check fails, is 429 exactly when the checks pass and the client's `ratelimit:` key holds a live entry whose value is not empty (`Throttled`), and is sent only when dispatch succeeded; `SentExactlyWhenAllChecksPass` gives the converse |
| Contact.ContactEntries | worker/index.js:82-95 | a submission writes at most the client's `ratelimit:` key, every other key keeps its entry, and a failed check writes nothing; `AcceptedSubmissionArmsWindow` and `ThrottledClientRejected` give the entry written |
| Contact.HandleContact | worker/index.js:50-145 | the handler's outcome and new store are those of the gate's specification functions |
| Contact.HoneypotAlwaysSpam | worker/index.js:54-60 | a filled honeypot gives "Spam detected" (400) whatever the other fields, store unchanged |
| Contact.MissingFieldsBeforeEmailShape | worker/index.js:62-68 | with an empty honeypot, an empty name, email or message gives "Missing required fields" (400) before the email shape is checked, store unchanged |
| Contact.MalformedEmailRejected | worker/index.js:70-77 | with the fields filled, an email not matching the pattern gives "Invalid email address" (400), store unchanged |
| Contact.ThrottledClientRejected | worker/index.js:80-92 | a valid submission whose `ratelimit:<client>` key holds a live entry whose value is not empty (`Throttled`) gives 429, store unchanged |
| Contact.AcceptedSubmissionArmsWindow | worker/index.js:94-144 | a valid submission whose `ratelimit:<client>` key holds no live entry with a non-empty value (not `Throttled`) writes exactly `ratelimit:<client>` = "1" expiring at now + 3600, then gives 200 or, on dispatch failure, 500 with the entry kept |
| Contact.SentExactlyWhenAllChecksPass | worker/index.js:54-137 | a message is sent if and only if the honeypot is empty, the fields are filled, the email matches, the client's `ratelimit:` key holds no live entry with a non-empty value (not `Throttled`) and dispatch succeeds |
| Contact.SecondSubmissionWithinWindow | worker/index.js:79-95 | after an accepted submission, the same client's next valid one is rate-limited before the hour is up and dispatched again after it |
| Contact.DistinctClientsKeepOwnWindows | worker/index.js:79-95 | clients with different non-empty `CF-Connecting-IP` headers do not throttle each other: one client's accepted submission leaves another, not already throttled, free to reach dispatch |
| Contact.HeaderlessClientsShareBucket | worker/index.js:80-95 | requests without a usable `CF-Connecting-IP` header share the "unknown" bucket and throttle each other |
| PopularCache.ResponseGroups | worker/index.js:198-199 | the records of an ok response are those at the data path, or `[]` when the path is missing |
| PopularCache.Cached | worker/index.js:149-150 | the served list is `[]` when nothing is stored, and a non-empty served list is exactly the live stored list; `ReadAfterRefresh` ties it to the refresh |
| PopularCache.RefreshEntries | worker/index.js:193-215 | a non-ok response leaves the store unchanged; an ok one writes the `popular-posts` key alone, with the transformed list and no expiry, and every other key keeps its entry |
| PopularCache.UpdatePopularPosts | worker/index.js:159-218 | a non-ok response throws "Failed to fetch analytics data" and leaves the store unchanged; an ok one replaces the `popular-posts` entry whole with the transformed list |
| PopularCache.GetPopularPosts | worker/index.js:148-156 | the reader returns exactly `Cached` of the store: the stored list, or `[]` when nothing or a text value is stored, and writes nothing |
| PopularCache.RateLimitKeyIsNotCacheKey | worker/index.js:81 | no `ratelimit:` key equals `popular-posts` |
| PopularCache.EmptyBeforeFirstRefresh | worker/index.js:149-150 | with nothing stored the reader serves `[]` |
| PopularCache.ReadAfterRefresh | worker/index.js:197-215 | after an ok refresh, every later read returns exactly the computed list, `[]` when the data path was missing |
| PopularCache.FailedRefreshKeepsCache | worker/index.js:193-195 | a non-ok response leaves the served list as it was |
| PopularCache.RefreshKeepsRateLimits | worker/index.js:215 | a refresh never changes whether a client is rate-limited |
| PopularCache.ContactKeepsCache | worker/index.js:95 | a contact submission never changes the served list |
| PopularCache.RefreshKeepsCacheWellFormed | worker/index.js:202-215 | refreshes keep the cache entry a non-expiring list of at most five `/blog/` posts |
| PopularCache.ContactKeepsCacheWellFormed | worker/index.js:95 | contact submissions keep that cache invariant |
| PopularCache.ServedListIsBounded | worker/index.js:149-150 | in a well-formed store the served list has at most five posts, all with `/blog/` paths |

## Left out

- HTTP routing, the OPTIONS preflight, CORS headers and the JSON response envelopes (worker/index.js:4-37): the outcome tag, `Contact.Status` and `Contact.ErrorText` stand for the responses.
- Decoding the request body with `request.json()`: a field is a string, and a missing field is the empty string, which is falsy in the same way. Non-string JSON values are not modelled, and neither is a body that does not parse (that reaches the router's catch as a 500).
- The SES client, the email subject and HTML body, and the `send` call (worker/index.js:98-132). These are a foreign SDK call, so the model takes only whether dispatch succeeded.
- The GraphQL query text, the `fetch` to the analytics API and JSON parsing (worker/index.js:160-197). These are network I/O, so the model takes the response as an input.
- `getWeekAgo` and `getNow` (worker/index.js:220-228). These read the wall clock. Time in the model is the integer `now`.
- JSON serialisation of the stored list. The model stores the list itself. `PopularCache.GetPopularPosts` therefore serves `[]` for a text value under `popular-posts`, a case `PopularCache.CacheWellFormed` rules out for every store reached by these operations.
- Failures of the key-value store itself. The model's `get` and `put` always succeed.
- The `scheduled` handler's catch-and-log and all `console` output (worker/index.js:40-46, 139, 217).
- Concurrent invocations, such as two submissions from one client that both pass the rate-limit check before either writes. The model is sequential.
- Lone UTF-16 surrogates: Dafny strings are sequences of Unicode scalar values, while JavaScript strings are UTF-16 code units. A string holding a lone surrogate, which a JSON `\ud800` escape can produce, cannot be represented. For every string that can be, the regular expression, `startsWith` and `split` behave as in the source.
- Reads are not recorded. "The store is not touched" is stated as the store's contents being unchanged. That `HandleContact` returns before calling `Store.Get` on a failed check is visible only in its body.
