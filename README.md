# Salesforce page compare, modelled in Dafny

The application captures full-page screenshots of Salesforce Lightning record pages before an
upgrade and after it. It extracts the text of both with OCR and reports what changed. This
project models the deterministic core of that application and proves what it computes:

- **Comparison** (`comparison.dfy`): the text comparison engine.
  - Normalisation: lower-case, one space per whitespace run, trimmed.
  - Word sets and the added, removed and common words.
  - The similarity percentage, rounded to hundredths.
  - The membership-based line diff.
  - The caps on the returned lists.
  - The lookup of a record's `before` and `after` screenshots, and the order of its errors.
- **Artifacts** (`artifacts.dfy`): the `{object}.{record}.{phase}.png` naming convention, and the screenshots directory as a mutable map.
- **Screenshot** (`screenshot.dfy`): the capture service.
  - The `sid` cookie list and the login-redirect test.
  - The `autoScroll` interval loop and the ordered record-name fallback.
  - The related-list clip.
  - The capture as a sequence of browser calls that may fail. The `finally` cleanup is a small handle state machine, the `Playwright` class.
- **Session**, **ObjectCatalog** and **SalesforceRoutes** (`session.dfy`, `object_catalog.dfy`, `salesforce_routes.dfy`): the Express session as a class over a key-value map, and the Salesforce routes' own logic.
  - The namespace filter, projection and stable sort of objects, and the one-hour cache.
  - The selected object.
  - The phase of a capture and the `capturedRecords` upsert.
  - The upgrade-state endpoints and the comparison endpoint.
- **AuthService**, **FormUrlEncoded**, **Pkce**, **StateManager** and **Bytes** (`auth_service.dfy`, `form.dfy`, `pkce.dfy`, `state_manager.dfy`, `bytes.dfy`): the OAuth helpers.
  - The org-type to domain and endpoint mapping.
  - The authorize URL and its query string. `URLSearchParams` is modelled by the serializer and parser of section 5 of the WHATWG URL Standard.
  - The token requests and the expiry arithmetic of `getAuthStatus`, through JavaScript `parseInt`.
  - `logout`'s key deletion and the logout URL.
  - base64url (section 5 of RFC 4648, proved against an independent encoder and a decoder).
  - The PKCE verifier and S256 challenge (sections 4.1 and 4.2 of RFC 7636).
  - The CSRF state check, which compares UTF-8 bytes.
- **ComparisonPage** and **ObjectSelector** (`comparison_page.dfy`, `object_selector.dfy`): the two pure filters of the React client.
  - The before/after pairing filter and the similarity colour bands.
  - The case-insensitive object search.
- **Seqs**, **Text** and **Results** (`seqs.dfy`, `text.dfy`, `results.dfy`): general helpers.
  - `filter`, `new Set` and subsequences.
  - JavaScript whitespace, ASCII case, `trim`, `split`, `join` and `includes`.
  - Option and Result.

Effects are inputs:

- The OCR engine is a function from image bytes to an optional text.
- The browser is a value, `BrowserEnv`, that says which calls throw and what each returns.
- Random bytes and SHA-256 are an argument and a function with 32-byte results.
- The clock is a number, or a timestamp string, passed in.
- The describe call of the objects route is its result or its error message.

The validation comment of `validateState` promises a boolean; the code throws for states of
different byte lengths. The model follows the code (see Findings).

## Model

| member | source | states |
|---|---|---|
| Comparison.NormalizeTextNormalForm | server/services/comparisonService.js:57-62 | the normalised text has no upper-case letter, no whitespace other than single spaces, no two spaces in a row and no space at either end |
| Comparison.NormalFormFixed | server/services/comparisonService.js:57-62 | a text already in that form is left unchanged |
| Comparison.NormalizeTextIdempotent | server/services/comparisonService.js:57-62 | normalising twice is normalising once |
| Comparison.Words | server/services/comparisonService.js:68-69 | no word is empty or contains whitespace |
| Comparison.WordsJoin | server/services/comparisonService.js:68-69 | the words of a normalised text, joined by single spaces, give the text back |
| Comparison.MissingSet | server/services/comparisonService.js:75-76 | the added (removed) words are the set difference of the two word sets, each listed once |
| Comparison.SharedSet | server/services/comparisonService.js:77 | the common words are the intersection of the word sets, each listed once |
| Comparison.WordListsAlgebra | server/services/comparisonService.js:71-77 | added = after minus before, removed = before minus after, common = the intersection; each duplicate-free and the three pairwise disjoint |
| Comparison.UnionCard | server/services/comparisonService.js:80 | the union holds the common words, and neither word set is larger than its list |
| Comparison.SimilarityHundredths | server/services/comparisonService.js:80-97 | the nearest integer to 10000·common/total with halves rounded up, within 0..10000; 100 % for no words or all words common, 0 % for none common |
| Comparison.CommonCount | server/services/comparisonService.js:100-102 | the common count is the size of the intersection, at most either word count |
| Comparison.WordSimilarity | server/services/comparisonService.js:80-97 | the similarity lies between 0 and 100 |
| Comparison.SimilarityRounding | server/services/comparisonService.js:80-97 | similarity·100 is an integer, the rounding of 10000·common/union; it is 100 when there are no words |
| Comparison.SimilarityIdentical | server/services/comparisonService.js:80-83 | identical word sets give 100 % |
| Comparison.SimilarityDisjoint | server/services/comparisonService.js:80-83 | disjoint, not both empty word sets give 0 % |
| Comparison.SimilaritySymmetric | server/services/comparisonService.js:80-83 | the similarity does not depend on the order of the texts |
| Comparison.Lines | server/services/comparisonService.js:86-87 | every line is non-empty and has no whitespace at either end |
| Comparison.UnmatchedSpec | server/services/comparisonService.js:89-94 | the line diff is an order-preserving subsequence that keeps every repetition of the lines matching no line on the other side and drops all others |
| Comparison.CompareTexts | server/services/comparisonService.js:96-108 | the texts and the timestamp are passed through, the common count is at most both word counts, and the similarity is within 0..100 |
| Comparison.CompareTextsCounts | server/services/comparisonService.js:100-102 | the word counts count words with repetition; the common count counts distinct shared words |
| Comparison.CompareTextsWordCaps | server/services/comparisonService.js:103-104 | each word list is the first min(50, n) entries of the uncapped list |
| Comparison.CompareTextsLineCaps | server/services/comparisonService.js:105-106 | each line list is the first min(20, n) entries of the uncapped list |
| Comparison.SwapWordLists | server/services/comparisonService.js:75-76 | swapping the texts swaps added and removed words |
| Comparison.SwapLineLists | server/services/comparisonService.js:89-94 | swapping the texts swaps added and removed lines |
| Comparison.CommonCountSymmetric | server/services/comparisonService.js:77 | the common count is symmetric |
| Comparison.SwapCommonCount | server/services/comparisonService.js:102 | swapping the texts keeps the common count |
| Comparison.CompareSwap | server/services/comparisonService.js:75-106 | swapping the texts swaps added and removed words and lines and the two word counts; it keeps the common count and the similarity |
| Comparison.UnmatchedSelf | server/services/comparisonService.js:89-94 | a line list has no unmatched line against itself |
| Comparison.MissingSelf | server/services/comparisonService.js:75-76 | a word list has no missing word against itself |
| Comparison.SelfWordLists | server/services/comparisonService.js:103-104 | comparing a text with itself adds and removes no word |
| Comparison.SelfCommonCount | server/services/comparisonService.js:102 | comparing a text with itself shares all its distinct words |
| Comparison.CompareSelf | server/services/comparisonService.js:44-108 | comparing a text with itself gives empty diffs and 100 % similarity |
| Comparison.ExtractText | server/services/comparisonService.js:16-36 | a missing image and an OCR failure are errors; otherwise the result is the trimmed recognised text |
| Comparison.CompareRecordScreenshots | server/services/comparisonService.js:121-134 | the `before` file is looked up first, then the `after` file, each under the artifact name; the comparison runs only when both exist and both OCR calls succeed, and its result is CompareTexts of the trimmed texts |
| Artifacts.ArtifactFilename | server/services/screenshotService.js:148 | the name starts with the object and a dot and ends with the phase and `.png` |
| Artifacts.ArtifactFilenameFields | server/services/screenshotService.js:148 | a name whose parts have no dots splits back on the dots into object, record, phase and `png` |
| Artifacts.ArtifactFilenameInjective | server/services/screenshotService.js:148 | distinct dot-free triples name distinct files |
| Artifacts.ArtifactFilenameCollision | server/services/screenshotService.js:148 | parts containing dots can collide |
| Artifacts.ArtifactStore.constructor | server/services/screenshotService.js:9-13 | the directory starts with the given files |
| Artifacts.ArtifactStore.Write | server/services/screenshotService.js:152-156 | a screenshot creates or overwrites exactly one file |
| Screenshot.BuildSessionCookies | server/services/screenshotService.js:56-79 | one cookie for the instance host, and one more for the record host exactly when it differs; all named `sid`, carrying the token, path `/`, secure, not httpOnly, SameSite Lax |
| Screenshot.LoginRedirectSimplified | server/services/screenshotService.js:99 | the third test is subsumed: a URL is a login redirect iff it contains `login.salesforce.com` or `/login` |
| Screenshot.ScrollTicksFrom | server/services/screenshotService.js:188-199 | the interval stops on a tick whose running total reaches the height read on that tick |
| Screenshot.AutoScroll | server/services/screenshotService.js:185-202 | the loop adds exactly 100 per tick and stops at the first tick whose total reaches the height read; it runs at least one tick |
| Screenshot.ScrollTicksConstant | server/services/screenshotService.js:188-199 | for a constant height counted from any tick, the number of ticks is the ceiling of h/100 or one more tick |
| Screenshot.ScrollTicksFixedHeight | server/services/screenshotService.js:185-202 | for a fixed height h the interval runs max(1, ⌈h/100⌉) ticks |
| Screenshot.RecordNameFrom | server/services/screenshotService.js:271-285 | the record name is never empty |
| Screenshot.RecordNameFirstNamed | server/services/screenshotService.js:278-283 | the name is the trimmed text of the first selector with non-blank text |
| Screenshot.RecordNameNoneNamed | server/services/screenshotService.js:285 | without such a selector the name is the title when non-empty, else `Unknown Record` |
| Screenshot.ExtractRecordName | server/services/screenshotService.js:267-293 | the loop with early return computes the fallback chain; an evaluation error gives `Unknown Record` |
| Screenshot.Clip | server/services/screenshotService.js:304-309 | x and y are passed through; width is at most 1920 and height at most 5000, each equal to the input or capped |
| Screenshot.CaptureRelatedListScreenshot | server/services/screenshotService.js:298-317 | true and the clipped PNG written, or false and nothing written |
| Screenshot.Playwright.constructor | server/services/screenshotService.js:26-27 | no handle is live at the start |
| Screenshot.Playwright.Acquire | server/services/screenshotService.js:31-42 | launching or opening a page adds one new live handle |
| Screenshot.Playwright.Release | server/services/screenshotService.js:177-178 | closing removes the handle |
| Screenshot.CaptureAttempt | server/services/screenshotService.js:29-172 | the try block returns CaptureOutcome, writes exactly CaptureFiles, and reports the browser and page handles it opened |
| Screenshot.CaptureRecordScreenshot | server/services/screenshotService.js:25-180 | the outcome is CaptureOutcome and the files are CaptureFiles; no handle stays live on any exit path |
| Screenshot.LoginRedirectAborts | server/services/screenshotService.js:99-105 | a navigation redirected to a login page fails with the authentication error and leaves the artifact untouched |
| Screenshot.DebugFilenameDots | server/services/screenshotService.js:101 | the debug file name has exactly one dot |
| Screenshot.ArtifactFilenameDots | server/services/screenshotService.js:148 | an artifact name has at least three dots |
| Screenshot.DebugIsNotArtifact | server/services/screenshotService.js:101 | the debug screenshot can never overwrite an artifact |
| Screenshot.CaptureSuccess | server/services/screenshotService.js:147-172 | a successful capture names and writes the artifact of its request and reports a non-empty record name |
| Screenshot.WaitsDoNotMatter | server/services/screenshotService.js:109-136 | when the marker appears and when the spinners vanish changes neither the outcome nor the files |
| Session.Session.Set | server/routes/salesforce.js:77-78 | an assignment changes exactly one key |
| Session.Session.Delete | server/services/authService.js:202-211 | a `delete` removes exactly one key |
| ObjectCatalog.ToObjectInfo | server/routes/salesforce.js:65-70 | apiName is the name; label is the label or else the name; keyPrefix is passed through; custom is true only for `custom: true` |
| ObjectCatalog.Project | server/routes/salesforce.js:65-70 | the projection maps each element |
| ObjectCatalog.Insert | server/routes/salesforce.js:71-74 | insertion keeps the list sorted by label and adds exactly one element |
| ObjectCatalog.SortByLabel | server/routes/salesforce.js:71-74 | the result is sorted by label and a permutation of the input |
| ObjectCatalog.NamespaceObjects | server/routes/salesforce.js:59-74 | the list is sorted, a permutation of the projected namespace objects, and no longer than the described list |
| ObjectCatalog.SortedPairwise | server/routes/salesforce.js:71-74 | a list sorted pair by pair is sorted for all positions |
| ObjectCatalog.NamespaceObjectsFields | server/routes/salesforce.js:60-70 | every listed object projects a described namespace object; its apiName starts with the namespace and its label is non-empty |
| ObjectCatalog.NamespaceObjectsSorted | server/routes/salesforce.js:71-74 | labels are in order for every two positions |
| ObjectCatalog.NamespaceObjectsComplete | server/routes/salesforce.js:60-64 | every described object in the namespace is listed |
| SalesforceRoutes.CacheKey | server/routes/salesforce.js:30 | the cache key starts with `objects_` |
| SalesforceRoutes.TimestampKey | server/routes/salesforce.js:31 | the timestamp key starts with `objects_` |
| SalesforceRoutes.ListObjects | server/routes/salesforce.js:13-105 | no token or instance URL: 401 and no change; a fresh cache is returned as is; a failed describe is an error; otherwise the namespace list is returned and written to the cache with the clock |
| SalesforceRoutes.CacheServedForAnHour | server/routes/salesforce.js:31-35 | a cache written at time w is fresh exactly while now < w + 3600000 |
| SalesforceRoutes.SelectObject | server/routes/salesforce.js:111-148 | a missing apiName is an error with no change; otherwise the selection, its label defaulting to the name, is stored |
| SalesforceRoutes.CurrentSelection | server/routes/salesforce.js:154-163 | the stored selection when truthy, else null |
| SalesforceRoutes.SelectThenGet | server/routes/salesforce.js:126-156 | what the select route stores, the get route returns, with a non-empty label |
| SalesforceRoutes.SelectionOf | server/routes/salesforce.js:274-283 | the selection the capture route reads, or none |
| SalesforceRoutes.CapturedRecordsOf | server/routes/salesforce.js:309-311 | the stored captures, or the empty list |
| SalesforceRoutes.Upsert | server/routes/salesforce.js:313-330 | the new entry is last and is the only entry with its (recordId, upgradeState) key |
| SalesforceRoutes.UpsertKeepsOthers | server/routes/salesforce.js:314-316 | the other entries keep their order and their repetitions |
| SalesforceRoutes.UpsertRepeat | server/routes/salesforce.js:313-330 | repeating a capture of the same key replaces the earlier entry and keeps the length |
| SalesforceRoutes.UpsertUniqueKeys | server/routes/salesforce.js:313-330 | keys stay unique; the list grows by one exactly when the key was new |
| SalesforceRoutes.InferPhase | server/routes/salesforce.js:288-289 | a non-empty requested phase is used verbatim; otherwise `after` iff some capture has this recordId and `before`, the object not consulted |
| SalesforceRoutes.PhaseAfterBefore | server/routes/salesforce.js:288-289 | after a `before` capture is recorded, the next capture of that record is `after` |
| SalesforceRoutes.PhaseIgnoresObject | server/routes/salesforce.js:289 | the inferred phase does not depend on the objects of earlier captures |
| SalesforceRoutes.WithPhaseIfUnset | server/routes/salesforce.js:292-294 | `upgradeState` is written only when it was unset |
| SalesforceRoutes.CaptureRoute | server/routes/salesforce.js:246-349 | the checks run in order (authentication, record URL, selection); then the phase is recorded if unset, the capture runs, and on success the metadata is upserted. A failed capture keeps the recorded phase. No handle stays live |
| SalesforceRoutes.SetUpgradeState | server/routes/salesforce.js:355-387 | only `before` or `after` is stored; anything else is an error and leaves the session unchanged |
| SalesforceRoutes.UpgradeStateOf | server/routes/salesforce.js:395 | the stored state, `before` by default |
| SalesforceRoutes.SetThenGetUpgradeState | server/routes/salesforce.js:369 | what POST stores, GET returns |
| SalesforceRoutes.CaptureKeepsUpgradeState | server/routes/salesforce.js:292-294 | a capture never changes an upgrade state already set |
| SalesforceRoutes.CompareRoute | server/routes/salesforce.js:446-484 | a missing objectApiName is an error; otherwise the route succeeds or fails exactly as the record comparison does |
| SalesforceRoutes.PhaseFilesDiffer | server/services/comparisonService.js:122-123 | the two phases of a record name different files |
| SalesforceRoutes.CaptureThenCompare | server/services/comparisonService.js:122-133 | after a successful before capture and a successful after capture, the comparison reads exactly the two rendered pages |
| SalesforceRoutes.PhaseAcrossObjects | server/routes/salesforce.js:288-289 | a `before` capture of one object makes the next capture of the same record id under another object `after`, and that object's comparison then reports a missing `before` screenshot |
| FormUrlEncoded.EncodeByte | server/services/authService.js:82 | one to three ASCII characters, never `&` or `=` |
| FormUrlEncoded.FormEncode | server/services/authService.js:82 | a serialized name or value is ASCII with no `&` or `=` |
| FormUrlEncoded.DecodeEncodeBytes | server/services/authService.js:82 | the parser's byte decoding undoes the serializer |
| FormUrlEncoded.FormRoundTrip | server/services/authService.js:82 | decoding undoes encoding on strings |
| FormUrlEncoded.FormEncodeInjective | server/services/authService.js:82 | distinct strings serialize differently |
| FormUrlEncoded.ParseEncodedPair | server/services/authService.js:82 | a serialized pair parses back to itself |
| FormUrlEncoded.QueryRoundTrip | server/services/authService.js:82 | a serialized query parses back into exactly its pairs, in order |
| AuthService.EnvVar | server/services/authService.js:7-9 | a set variable's value, the empty string when unset |
| AuthService.ConfigFrom | server/services/authService.js:7-9 | the client id and secret from the environment; the callback URL or its local default |
| AuthService.GetLoginDomain | server/services/authService.js:18-32 | a custom domain gives `https://{domain}`; `sandbox` and `test` give test.salesforce.com; every other org type gives login.salesforce.com |
| AuthService.TokenEndpointIsLoginDomain | server/services/authService.js:37-51 | for all inputs the token endpoint is the login domain followed by `/services/oauth2/token` |
| AuthService.LoginParams | server/services/authService.js:72-80 | seven parameters with a state, six without |
| AuthService.GetLoginUrl | server/services/authService.js:60-88 | without a client id it fails; otherwise the verifier comes from the random bytes and the URL is the authorize endpoint with the serialized parameters carrying its challenge |
| AuthService.LoginParamsShape | server/services/authService.js:72-80 | the parameters in order, the method always `S256`, and `state` present exactly when one was given |
| AuthService.LoginUrlQuery | server/services/authService.js:82-87 | the query string parses back into the parameters, and the challenge decodes to the SHA-256 of the verifier |
| AuthService.ExchangeCodeForToken | server/services/authService.js:98-117 | the credentials are checked first, then a missing verifier fails, both before any request; a request goes to the token endpoint with the grant's parameters |
| AuthService.ExchangeParams | server/services/authService.js:109-116 | six form parameters |
| AuthService.RefreshAccessToken | server/services/authService.js:139-151 | it fails exactly without credentials; otherwise it posts to the token endpoint |
| AuthService.RefreshParams | server/services/authService.js:146-151 | four form parameters |
| AuthService.ExchangeBodyCarriesVerifier | server/services/authService.js:109-116 | the posted body parses back with the grant type, the code and the verifier unchanged |
| AuthService.LeadingDigits | server/services/authService.js:184 | the longest prefix of digits in the radix |
| AuthService.ParseIntDecimal | server/services/authService.js:184 | `parseInt` reads back a decimal rendering |
| AuthService.ParseIntDigits | server/services/authService.js:184 | a non-empty digit string parses to its value |
| AuthService.ExpiresAt | server/services/authService.js:184-185 | no expiry without a truthy issue time; an expiry is the parsed issue time plus two hours, and never 0 |
| AuthService.GetAuthStatus | server/services/authService.js:172-195 | not authenticated iff no access token; otherwise expired iff an expiry exists and now is strictly after it; refresh token, instance URL and user id reported |
| AuthService.ExpiryOfIssuedAt | server/services/authService.js:181-185 | an issue time stored as decimal milliseconds expires 7200000 ms later, strictly |
| AuthService.NoIssuedAtNeverExpires | server/services/authService.js:184-185 | without an issue time the token is never expired and has no expiry |
| AuthService.GarbageIssuedAtNeverExpires | server/services/authService.js:184-185 | a non-numeric issue time gives `NaN`, so no expiry either |
| AuthService.LoggedOut | server/services/authService.js:201-218 | exactly the listed keys and the `objects_` keys are gone; the rest is unchanged |
| AuthService.Logout | server/services/authService.js:201-218 | the method leaves exactly LoggedOut of the old session |
| AuthService.DeleteKeys | server/services/authService.js:202-211 | the listed keys are removed and nothing else changes |
| AuthService.ClearObjectCaches | server/services/authService.js:213-217 | the sweep over a snapshot of the keys removes exactly the cache keys |
| AuthService.LogoutIdempotent | server/services/authService.js:201-218 | logging out twice is logging out once |
| AuthService.LogoutUnauthenticates | server/services/authService.js:202 | after logout the status is not authenticated |
| AuthService.GetLogoutUrl | server/services/authService.js:225-231 | null iff the instance URL is empty, else the instance URL followed by `/secur/logout.jsp` |
| Pkce.Base64 | server/utils/pkce.js:30 | standard base64 has 4·⌈n/3⌉ characters |
| Pkce.Base64UrlEncodeIsBase64Url | server/utils/pkce.js:28-34 | the replace chain computes exactly unpadded base64url |
| Pkce.Base64UrlShape | server/utils/pkce.js:28-34 | base64url has ⌈4n/3⌉ characters from the URL-safe alphabet |
| Pkce.Base64UrlRoundTrip | server/utils/pkce.js:28-34 | decoding undoes base64url |
| Pkce.Base64UrlEncodeProperties | server/utils/pkce.js:28-34 | the encoding as written has ⌈4n/3⌉ URL-safe characters, so no `+`, `/` or `=`, and is injective |
| Pkce.Rfc4648OneByteVector | server/utils/pkce.js:28-34 | "f" gives "Zg==" in base64 and "Zg" here (section 10 of RFC 4648) |
| Pkce.Rfc4648TwoByteVector | server/utils/pkce.js:28-34 | "fo" gives "Zm8=" and "Zm8" |
| Pkce.Rfc4648FoobarVector | server/utils/pkce.js:28-34 | "foobar" gives "Zm9vYmFy" |
| Pkce.UrlSafeReplacementVector | server/utils/pkce.js:31-32 | bytes FB FF give "+/8=" in base64 and "-_8" here |
| Pkce.GenerateCodeVerifier | server/utils/pkce.js:7-11 | 43 URL-safe characters, within the 43 to 128 of RFC 7636 section 4.1 |
| Pkce.GenerateCodeChallenge | server/utils/pkce.js:18-21 | 43 URL-safe characters that decode to the SHA-256 digest of the verifier's UTF-8 bytes (S256, RFC 7636 section 4.2) |
| Bytes.Utf8 | server/utils/stateManager.js:24-25 | between one and four bytes per character; empty exactly for the empty string |
| Bytes.Utf8RoundTrip | server/utils/stateManager.js:24-25 | decoding undoes `Buffer.from` |
| Bytes.Utf8Injective | server/utils/stateManager.js:24-25 | distinct strings have distinct bytes |
| Bytes.Hex | server/utils/stateManager.js:8 | two lower-case hex digits per byte |
| Bytes.HexRoundTrip | server/utils/stateManager.js:8 | decoding undoes hex encoding |
| StateManager.GenerateState | server/utils/stateManager.js:7-9 | 64 lower-case hex characters that decode to the random bytes |
| StateManager.ValidateState | server/utils/stateManager.js:17-27 | false when either state is empty; a length-mismatch error for non-empty states of different byte lengths |
| StateManager.ValidateStateEqual | server/utils/stateManager.js:22-26 | equal non-empty states validate |
| StateManager.ValidateStateDifferent | server/utils/stateManager.js:22-26 | different states of equal byte length are rejected without an error |
| StateManager.ValidateStateMeaning | server/utils/stateManager.js:17-27 | whenever the check returns, it returns true exactly for equal non-empty states |
| StateManager.ValidateStateSymmetric | server/utils/stateManager.js:17-27 | the check is symmetric in its arguments |
| StateManager.ValidateStateThrows | server/utils/stateManager.js:23-26 | "a" against "ab" throws instead of returning false |
| StateManager.ValidateStateGuarded | server/utils/stateManager.js:17-27 | with a length guard: true exactly for equal non-empty states |
| StateManager.GuardedAgrees | server/utils/stateManager.js:17-27 | the guarded check agrees with the original wherever the original returns |
| StateManager.CallbackStateCheck | server/routes/auth.js:79-129 | the callback continues to the token exchange exactly for equal non-empty states |
| StateManager.CallbackStateCheckGuarded | server/routes/auth.js:79-85 | with the guarded check, every rejected state is reported as invalid |
| StateManager.CallbackMisreportsForgedState | server/routes/auth.js:79-129 | as written, a forged state of another length is reported as a failed token exchange; the guarded check reports a CSRF failure |
| ComparisonPage.ComparableRecords | client/src/pages/Comparison.js:24-32 | every listed record is a returned `before` capture with an `after` capture of the same record and object among the returned ones |
| ComparisonPage.ComparableIsSubseq | client/src/pages/Comparison.js:24-32 | the list is an order-preserving subsequence of the returned records |
| ComparisonPage.ComparableComplete | client/src/pages/Comparison.js:24-32 | every `before` capture with an `after` partner is listed |
| ComparisonPage.NoAfterNoComparison | client/src/pages/Comparison.js:26-30 | without any `after` capture nothing is listed |
| ComparisonPage.SimilarityColor | client/src/pages/Comparison.js:62-66 | green iff ≥ 95, yellow iff 80 ≤ s < 95, red iff < 80 |
| ComparisonPage.SimilarityColorMonotone | client/src/pages/Comparison.js:62-66 | a higher similarity never gets a worse band |
| ComparisonPage.IdenticalTextsAreGreen | client/src/pages/Comparison.js:62-66 | a text compared with itself is painted green |
| ObjectSelector.FilteredObjects | client/src/components/ObjectSelector.jsx:68-74 | every shown object is listed and matches; every listed object that matches is shown |
| ObjectSelector.FilteredIsSubseq | client/src/components/ObjectSelector.jsx:68-74 | the shown objects keep the list order |
| ObjectSelector.FilteredIff | client/src/components/ObjectSelector.jsx:69-73 | a listed object is shown iff its lower-cased label or API name contains the lower-cased term |
| ObjectSelector.EmptySearchShowsAll | client/src/components/ObjectSelector.jsx:68-74 | an empty search term shows every object |
| ObjectSelector.SearchIgnoresCase | client/src/components/ObjectSelector.jsx:69 | two terms equal up to case show the same objects |
| ObjectSelector.SearchLowered | client/src/components/ObjectSelector.jsx:69 | lower-casing the term changes nothing |
| ObjectSelector.NarrowingSearch | client/src/components/ObjectSelector.jsx:69-73 | typing more characters never brings an object back |

## Left out

- OCR (`Tesseract.recognize`) and the file-existence checks are a foreign library and filesystem calls. OCR is a function parameter and the directory is a map.
- Comparison.CompareRecordScreenshots: the two OCR calls run one after the other, so a failure of the `before` extraction is reported even when the `after` one also fails; the source runs both under `Promise.all`, which reports whichever rejects first.
- Comparison.WordSimilarity: `Math.round(x * 100) / 100` on a double is modelled as exact rounding half up to hundredths. Floating-point error in the ratio is not modelled.
- ObjectCatalog.LabelLe: `localeCompare` is replaced by code-point order on labels; locale collation is not modelled.
- Text.Lower: `toLowerCase` is modelled on ASCII letters only. `\s` and `trim` use the ECMAScript whitespace set.
- Screenshot.AutoScroll: the loop is modelled under the requirement that the page height never exceeds a bound. The source's interval runs forever on a page that keeps growing.
- Playwright's launch, navigation, DOM queries and timing are an environment value (`BrowserEnv`). The waits are recorded but do not affect the outcome. Errors thrown by `close()` inside `finally` are not modelled.
- `captureRelatedLists` is DOM-bound and never called by the capture; only its clip helper is modelled.
- The records route (`GET /objects/:objectName/records`) is a Salesforce query over the network with no logic of its own to model. The same goes for the axios calls of the describe and token requests.
- SalesforceRoutes.ListObjects: the `count` field of the reply is not modelled. A failed describe carries one message string instead of the source's fallback chain of error fields.
- SalesforceRoutes.CacheFresh: a timestamp that is not a stored number counts as stale; JavaScript would coerce a numeric string.
- SalesforceRoutes.SelectionOf: a truthy session value that is not a selection counts as no selection; the source would read `apiName` from it.
- Session.StrEntry: a non-string access token, instance URL or upgrade state reads as the empty string.
- AuthService.ParseInt: integers are unbounded. The doubles of very long digit strings and the `Infinity` cases are not modelled.
- AuthService.GetAuthStatus: `expiresAt` is reported in milliseconds; its ISO-8601 rendering through `Date` is not modelled.
- Default parameters of `getLoginUrl`, `exchangeCodeForToken` and `refreshAccessToken` (`orgType = 'production'`, `customDomain = null`) are explicit arguments. The empty string stands for a missing domain or state.
- The Express plumbing, HTTP status codes, `console` logging and the rest of the OAuth callback beyond its state check. This includes `req.query.state` given as an array.
- The React client's state handling, rendering and API wrappers. Only the two filters are modelled.
- `crypto.randomBytes`, SHA-256 and the clock are inputs.

## Findings

| source | as written | input that shows it | evidently intended | confidence | as-written member | corrected member |
|---|---|---|---|---|---|---|
| server/utils/stateManager.js:23-26 | `timingSafeEqual` throws a RangeError when the two UTF-8 buffers differ in length. In the OAuth callback (server/routes/auth.js:80, 125-129) the throw lands in the `catch`, which redirects with `token_exchange_failed` | stored state "a", received state "ab" | return false, so that the callback redirects with `invalid_state` (CSRF validation failed) | not executed | StateManager.CallbackMisreportsForgedState | StateManager.CallbackStateCheckGuarded |
