# Phishing detection: a verified model of its decision logic

The system has three parts:

- A FastAPI backend whose `/check` endpoint normalises an address to `host[:port]`. It then looks the key up in a MongoDB blacklist and whitelist, and the blacklist wins.
- An offline pipeline. It computes 22 heuristic features per address, runs them in resumable batches with checkpoint files, and can recover the last checkpoint.
- A Chrome extension. Its background worker gates main-frame navigations through expiring allow and result maps, and its popup picks what to show for an answer.

This project models that logic in Dafny and proves what each part promises.

| file | module | models |
|---|---|---|
| `wrappers.dfy` | `Wrappers` | `Option` and `Result` |
| `str_util.dfy` | `StrUtil` | Python's ASCII `lower()`, `strip()`, `find`/`rfind`, `split` pieces and decimal text |
| `py_url.dfy` | `PyUrl` | the part of `urllib.parse.urlsplit` the backend relies on, with `hostname` and `port` |
| `server.dfy` | `Server` | `extract_domain`, `extract_domain_from_db_url`, the entry match, and `check` |
| `features.dfy` | `Features` | the 22 detectors and the `SafeFeatureExtraction` object |
| `runner.dfy` | `Runner` | the batch loop of `safe_feature_extraction` and its checkpoints |
| `recovery.dfy` | `Recovery` | checkpoint numbers, `get_last_processed_index` and `recovery_from_checkpoint` |
| `background.dfy` | `Background` | `normalizeForHost`, both TTL maps, `isPhishing`, `allowHost` and `onBeforeNavigate` |
| `popup.dfy` | `Popup` | `shouldSkipUrl`, `getSourceText`, the status dispatch and the special-page choice |

Parts of the world outside the code become parameters:

- The MongoDB collections are sequences of their `url` values.
- The page fetch is a function from address to an optional abstract `Document`.
- The WHATWG URL parser used by the extension is a function from text to an optional host.
- The clock readings are integers.
- The backend's answer is an `Answer` value.
- The sampled dataset is a sequence of records.
- The `glob` listing is a sequence of names.

The code had no bug that needed correcting, so there is no Findings table. The model follows the code in two places where its documentation suggests otherwise:

- `extract_domain` is not idempotent in general. The IPv6 literal `http://[::1]`, which `urlsplit` accepts, gives `::1`; that key reads as an empty host with the unreadable port `:1`, so it normalises to `http://::1`. An input `http:// a` gives ` a`, which then gives `a`. Idempotence is proved for every input whose netloc holds no `[` and whose key has no whitespace at either end, and both counterexamples are proved as lemmas.
- The backend's answer has no `phishing` field, so the extension's verdict is always false and no navigation is ever redirected by a backend answer (`Background.BackendNeverFlags`, `Background.NoRedirectFromBackend`).
- The popup never receives a backend answer. It sends `{ type: 'checkUrl' }` to the background worker, whose only message listener answers `allowHost` and nothing else. The reply is missing, so the popup shows its error view and `displayResult` never runs (`Popup.CheckUrlShowsError`, `Popup.NoMessageReachesResult`). The status dispatch is still modelled, as what the popup would show for an answer.

The source says `extract_all_features` puts 0 in the slot of a detector that raises. No detector can raise, because each one catches its own exceptions and returns its own default. So the vector is exactly the 22 detector values, each with its own default.

## Model

| member | source | states |
|---|---|---|
| StrUtil.Lower | backend/app/main.py:46 | `lower()` keeps the length and maps each character to its ASCII lower case |
| StrUtil.StripTrimmed | backend/app/main.py:41 | `strip()` leaves no whitespace at either end and does not change a trimmed text |
| StrUtil.DecimalRoundTrip | backend/app/safe_extraction_runner.py:88 | the decimal text of a number reads back as that number |
| StrUtil.CountOccurrencesZero | backend/app/safe_feature_extraction.py:357-367 | the non-overlapping count of a non-empty pattern is 0 exactly when the text does not contain it |
| PyUrl.UrlSplit | backend/app/main.py:50 | `urlparse`'s split into scheme, netloc and the rest, or the `ValueError` of an unbalanced or misplaced bracket; specified by `PyUrl.UrlSplitOfHttp` and `PyUrl.UrlSplitLower` |
| PyUrl.Hostname | backend/app/main.py:51 | the `hostname` property: the host part of the netloc after any `user@`, without brackets, lower-cased up to a `%` zone, and none for an empty host; specified through `Server.NetlocKeyIs` and `Server.AddressKey` |
| PyUrl.Port | backend/app/main.py:54-55 | a `port` that parses is at most 65535 |
| PyUrl.UrlSplitOfHttp | backend/app/main.py:47-50 | `http://netloc rest` splits back into that netloc and rest when the netloc has no delimiter and its brackets balance |
| PyUrl.UrlSplitLower | backend/app/main.py:46-50 | lower-casing the address neither makes nor breaks the parse, and lower-cases the netloc |
| PyUrl.PortLower | backend/app/main.py:54 | the `port` of a lower-cased netloc is the same |
| Server.DomainOf | backend/app/main.py:49-59 | the `try` block: the key of the parsed netloc, or the lower-cased input when urlparse or `port` raises; specified by `Server.NetlocKeyIs`, `Server.UnreadablePortFallsBack` and `Server.FallbackIsFixed` |
| Server.ExtractDomain | backend/app/main.py:39-59 | `extract_domain`; specified by `Server.BlankHasNoDomain`, `Server.ExtractDomainOfSchemed`, `Server.ExtractDomainOfBare`, `Server.AddressKey`, `Server.ExtractDomainIsLowerCase` and `Server.ExtractDomainIdempotent` |
| Server.ExtractDomainFromDbUrl | backend/app/main.py:61-79 | `extract_domain_from_db_url`; specified by `Server.DbUrlNormalisation` and `Server.BlankHasNoDomain` |
| Server.BlankHasNoDomain | backend/app/main.py:39-43 | an empty or whitespace-only input normalises to the empty key under both normalisers |
| Server.ExtractDomainOfSchemed | backend/app/main.py:46-50 | a trimmed input with an http(s) scheme, in any case, goes to urlparse unchanged |
| Server.ExtractDomainOfBare | backend/app/main.py:46-47 | any other trimmed input goes to urlparse with `http://` in front |
| Server.NetlocKeyIs | backend/app/main.py:51-57 | the key is the lower-cased hostname plus `:port` for a nonzero port, and there is no key exactly when `port` raises |
| Server.AddressKey | backend/app/main.py:46-57 | `scheme://host[:port]path` normalises to the lower-cased `host[:port]`, with no scheme and no path |
| Server.KeyIsFixed | backend/app/main.py:46-57 | a canonical `host[:port]` key normalises to itself |
| Server.ExtractDomainIsLowerCase | backend/app/main.py:51-59 | every normalised key is lower case |
| Server.ExtractDomainIgnoresCase | backend/app/main.py:46-59 | normalising a lower-cased input gives the same key |
| Server.StripAgain | backend/app/main.py:41 | the input's surrounding whitespace does not change the key |
| Server.FallbackIsFixed | backend/app/main.py:58-59 | on a parse or port failure the key is the lower-cased input with the default scheme, and that key normalises to itself |
| Server.UnreadablePortFallsBack | backend/app/main.py:46-59 | `host:port` with a non-numeric port falls back to `http://host:port` |
| Server.ExtractDomainIdempotent | backend/app/main.py:39-59 | for an input whose netloc holds no `[`, a key with no surrounding whitespace normalises to itself; a `[` in the path, query or fragment is allowed |
| Server.NoBracketInNetloc | backend/app/main.py:39-50 | an input without any `[` has none in its netloc |
| Server.BracketInPathIsFixed | backend/app/main.py:39-59 | `http://host/...[...` gives `host`, which normalises to itself |
| Server.BracketedHostNotIdempotent | backend/app/main.py:46-57 | `http://[::1]`, a valid IPv6 literal, gives `::1`, and normalising that again gives `http://::1` |
| Server.LeadingSpaceNotIdempotent | backend/app/main.py:41-57 | `http:// host` gives ` host`, and normalising that again gives `host` |
| Server.DbUrlNormalisation | backend/app/main.py:61-79 | with an http(s) scheme the stored value normalises as `extract_domain` would; without one, it is the lower-cased, stripped value |
| Server.PatternMatches | backend/app/main.py:101-103 | the anchored, case-insensitive `^https?://KEY(/.*)?$` pattern; specified by `Server.StoredAddressMatches` |
| Server.EntryMatches | backend/app/main.py:97-105 | the `$or` of the exact value and the pattern; specified by `Server.StoredDomainIsFound` and `Server.StoredAddressIsFound` |
| Server.InStore | backend/app/main.py:97-114 | `find_one` finds some stored value that matches; specified by `Server.CheckVerdict` |
| Server.StoredAddressMatches | backend/app/main.py:97-103 | a stored `http(s)://host/path` matches the pattern for a key exactly when the host equals the key, case aside; a longer or shorter host never matches |
| Server.Check | backend/app/main.py:86-138 | an empty url is the 400 error and nothing else is; the answer echoes the url and reports `extract_domain(url)` |
| Server.CheckVerdict | backend/app/main.py:97-126 | both lists are looked up independently; phishing/blacklist exactly when blacklisted, even if whitelisted; safe/whitelist exactly when only whitelisted; unknown/none otherwise |
| Server.StoredDomainIsFound | backend/app/main.py:99-120 | a blacklist value equal to the key makes the answer phishing |
| Server.StoredAddressIsFound | backend/app/main.py:101-120 | a blacklist value `http(s)://HOST/path` with `HOST` equal to the key, case aside, makes the answer phishing |
| Server.CheckIgnoresCase | backend/app/main.py:86-138 | a lower-cased url gets the same key, list flags, result and source |
| Features.PageOf | backend/app/safe_feature_extraction.py:11-45 | the object keeps the url and the fetched document; `domain` is the split netloc, or empty when urlparse raises |
| Features.UsingIp | backend/app/safe_feature_extraction.py:67-77 | -1 exactly when the netloc, or the whole url if unparsed, contains four dot-separated groups of 1 to 3 digits, each at most 255; 1 otherwise |
| Features.DottedQuadFound | backend/app/safe_feature_extraction.py:67-77 | any four such groups joined by dots, anywhere in the text, are found |
| Features.NoDotNoAddress | backend/app/safe_feature_extraction.py:67-77 | a text without a dot holds no dotted quad |
| Features.LongUrl | backend/app/safe_feature_extraction.py:79-88 | 1 below 54 characters, 0 for 54 to 75, -1 above 75 |
| Features.ShortUrl | backend/app/safe_feature_extraction.py:90-106 | -1 exactly when the url contains, case-sensitively, one of the listed shortener substrings; 1 otherwise |
| Features.ShortenerAnywhere | backend/app/safe_feature_extraction.py:90-106 | any url containing `t.co` is flagged as shortened |
| Features.Symbol | backend/app/safe_feature_extraction.py:108-114 | -1 exactly when the url contains `@`; 1 otherwise |
| Features.Redirecting | backend/app/safe_feature_extraction.py:116-122 | -1 exactly when `//` occurs at some index above 6, which is when the last one starts above 6; 1 otherwise |
| Features.PrefixSuffix | backend/app/safe_feature_extraction.py:124-130 | -1 exactly when the domain contains `-`; 1 otherwise |
| Features.SubDomains | backend/app/safe_feature_extraction.py:132-141 | 1 for exactly one dot in the url, 0 for exactly two, -1 for any other count including none |
| Features.Hppts | backend/app/safe_feature_extraction.py:143-149 | 1 exactly when the url parsed and its scheme contains `https`; -1 otherwise |
| Features.Favicon | backend/app/safe_feature_extraction.py:152-163 | 0 exactly without a document; 1 exactly when a head `link` href refers to the page itself; -1 otherwise |
| Features.NonStdPort | backend/app/safe_feature_extraction.py:165-173 | -1 exactly when the url parsed with an explicit nonzero port other than 80 and 443; 1 otherwise |
| Features.HttpsDomainUrl | backend/app/safe_feature_extraction.py:175-181 | -1 exactly when the domain contains `https`; 1 otherwise |
| Features.Band | backend/app/safe_feature_extraction.py:212-222 | the three-way cut of a percentage at two thresholds, as integer cross-multiplication, with its own value for a zero total |
| Features.BandMonotone | backend/app/safe_feature_extraction.py:212-222 | a larger share never scores better |
| Features.BandOfAll | backend/app/safe_feature_extraction.py:212-222 | a share of 100 percent scores -1 |
| Features.EmptyDomainCountsAll | backend/app/safe_feature_extraction.py:196-199 | with an empty domain every reference counts as self-referencing |
| Features.RequestUrlScore | backend/app/safe_feature_extraction.py:184-224 | a value in {-1, 0, 1}; -1 without a document; 0 for a page without resources |
| Features.AnchorUrlScore | backend/app/safe_feature_extraction.py:227-246 | a value in {-1, 0, 1}; -1 without a document or without anchors |
| Features.LinksInScriptTagsScore | backend/app/safe_feature_extraction.py:249-276 | a value in {-1, 0, 1}; -1 without a document; 0 without `link` and `script` references |
| Features.EmptyDomainScores | backend/app/safe_feature_extraction.py:184-276 | with an empty domain, any resources score -1 for RequestURL, and any link or script references score -1 for LinksInScriptTags |
| Features.EmptyDomainAnchor | backend/app/safe_feature_extraction.py:227-246 | with an empty domain an anchor is unsafe exactly when it has `#`, `javascript` or `mailto` |
| Features.ServerFormHandler | backend/app/safe_feature_extraction.py:279-292 | -1 without a document; 1 without forms that have an action; otherwise the first such form decides: -1 for an empty or `about:blank` action, 0 when neither the url nor the domain occurs in it, 1 otherwise |
| Features.EmptyDomainFormNeverForeign | backend/app/safe_feature_extraction.py:279-292 | with an empty domain the form detector never gives 0 |
| Features.WebsiteForwarding | backend/app/safe_feature_extraction.py:305-314 | -1 without a document; 1 for at most one redirect, 0 for two to four, -1 for more |
| Features.InfoEmail | backend/app/safe_feature_extraction.py:295-302 | 1 exactly when there is a document whose text has no character of the `mail()`/`mailto:` class; -1 otherwise |
| Features.StatusBarCust | backend/app/safe_feature_extraction.py:317-324 | 1 exactly when there is a document whose text matches `<script>.+onmouseover.+</script>`; -1 otherwise |
| Features.DisableRightClick | backend/app/safe_feature_extraction.py:327-334 | 1 exactly when there is a document whose text holds `event.button ?== ?2`; -1 otherwise |
| Features.UsingPopupWindow | backend/app/safe_feature_extraction.py:337-344 | 1 exactly when there is a document whose text contains `alert(`; -1 otherwise |
| Features.IframeRedirection | backend/app/safe_feature_extraction.py:347-354 | 1 exactly when there is a document whose text has a character of the `<iframe>`/`<frameBorder>` class; -1 otherwise |
| Features.ClassesMatchLetters | backend/app/safe_feature_extraction.py:295-354 | one `m`, `a` or `o` anywhere in the text is enough for both character-class detectors to fire |
| Features.LinksPointingToPage | backend/app/safe_feature_extraction.py:357-367 | -1 without a document; 1 when the text has no `<a href=`; 0 for one or two; -1 for more |
| Features.Detector | backend/app/safe_feature_extraction.py:47-65 | every detector, in the fixed order, gives a value in {-1, 0, 1} |
| Features.FeatureVector | backend/app/safe_feature_extraction.py:47-65 | exactly 22 values in {-1, 0, 1}, slot `k` holding detector `k` |
| Features.AddressDetectorsAreBinary | backend/app/safe_feature_extraction.py:67-181 | the address-only detectors UsingIp, ShortUrl, Symbol, Redirecting, PrefixSuffix, Hppts, NonStdPort and HTTPSDomainURL give only -1 or 1 |
| Features.NoDocumentDefaults | backend/app/safe_feature_extraction.py:16-367 | without a document Favicon is 0 and the eleven page detectors from RequestURL on are -1 |
| Features.AddressFeaturesIgnorePage | backend/app/safe_feature_extraction.py:67-181 | two pages with the same url, parse and domain agree on every address detector |
| Features.SafeFeatureExtraction.constructor | backend/app/safe_feature_extraction.py:11-45 | the new object holds the url, its parse, its domain and the fetched document, and its `features` is the 22-value vector |
| Features.SafeFeatureExtraction.ExtractAllFeatures | backend/app/safe_feature_extraction.py:47-65 | the loop appends the 22 detector values, in order, to `features` |
| Features.SafeFeatureExtraction.TallySelfReferencing | backend/app/safe_feature_extraction.py:193-200 | the counting loop advances `i` by the number of references and `success` by the self-referencing ones |
| Features.SafeFeatureExtraction.RequestURL | backend/app/safe_feature_extraction.py:184-224 | the four counting loops over img, audio, embed and iframe give the score of the self-referencing share, cut at 22 and 61 |
| Features.SafeFeatureExtraction.AnchorURL | backend/app/safe_feature_extraction.py:227-246 | the anchor loop gives the score of the unsafe share, cut at 31 and 67 |
| Features.SafeFeatureExtraction.LinksInScriptTags | backend/app/safe_feature_extraction.py:249-276 | the link and script loops give the score of the self-referencing share, cut at 17 and 81 |
| Runner.LabelValue | backend/app/safe_extraction_runner.py:67-80 | the label is 1 exactly for `legitimate` and -1 for anything else |
| Runner.RowOf | backend/app/safe_extraction_runner.py:57-81 | one row per record ending in its label; the extracted vector comes first, or 22 zeros for a missing address |
| Runner.RowsOfPages | backend/app/safe_extraction_runner.py:59-81 | with the real extractor a row is 22 values in {-1, 0, 1} followed by the label |
| Runner.Rows | backend/app/safe_extraction_runner.py:51-81 | the rows of an index range, row `k` belonging to record `lo + k`; specified by `Runner.RowsConcat`, `Runner.ExtractBatch` and `Runner.FinalIsLastCheckpoint` |
| Runner.RowsConcat | backend/app/safe_extraction_runner.py:51-57 | the rows of consecutive index ranges join into the rows of their union, so every index is processed once, in order |
| Runner.ResumeFrom | backend/app/safe_extraction_runner.py:31-39 | a positive `start_idx` with a readable checkpoint resumes from it with its rows; otherwise the run starts at 0 with no rows |
| Runner.BatchEnd | backend/app/safe_extraction_runner.py:52 | each batch ends after its start, at `i + batch_size` or at the total |
| Runner.CheckpointsFrom | backend/app/safe_extraction_runner.py:51-88 | no checkpoint is written exactly when the start is at or past the total |
| Runner.CheckpointNumbersIncrease | backend/app/safe_extraction_runner.py:51-88 | checkpoint numbers strictly increase, each lies past its batch's start, and the last is the total |
| Runner.CheckpointRowCounts | backend/app/safe_extraction_runner.py:31-88 | when the run starts with `start_idx` rows, every checkpoint holds as many rows as its number |
| Runner.FinalIsLastCheckpoint | backend/app/safe_extraction_runner.py:84-101 | the final table is the last checkpoint's rows: the starting rows, then one row per remaining record |
| Runner.RecoveryFindsTotal | backend/app/recovery_tool.py:43-66 | over the `checkpoint_features_{batch_end}.csv` names a run writes, the index query reports the total |
| Runner.SafeFeatureExtraction | backend/app/safe_extraction_runner.py:30-101 | a zero batch size fails before any checkpoint is written; otherwise the method returns exactly the specified final table and checkpoint log |
| Runner.ExtractBatch | backend/app/safe_extraction_runner.py:55-81 | the inner loop gives the rows of its index range, in order |
| Runner.ExtractRow | backend/app/safe_extraction_runner.py:58-81 | the loop body gives the record's row |
| Runner.FailedLoadStartsOver | backend/app/safe_extraction_runner.py:37-39 | a failed checkpoint read starts at 0 and ends with one row per record |
| Runner.ResumedTableIsComplete | backend/app/safe_extraction_runner.py:31-101 | a readable checkpoint of `start_idx` rows ends with one row per record |
| Recovery.CheckpointNumber | backend/app/recovery_tool.py:18 | the sort key `int(x.split('_')[-1].split('.')[0])`, or none when `int` raises; specified by `Recovery.CheckpointNameRoundTrip` and `Recovery.PyInt` |
| Recovery.PyInt | backend/app/recovery_tool.py:56 | `int()` only succeeds on text that is not blank once stripped |
| Recovery.CheckpointNameRoundTrip | backend/app/recovery_tool.py:18-56 | the number after the last `_` and before the next `.` of `checkpoint_features_N.csv` is `N` |
| Recovery.GetLastProcessedIndex | backend/app/recovery_tool.py:43-66 | the method's loop and `max` compute the specified index |
| Recovery.LastProcessedIsGreatest | backend/app/recovery_tool.py:49-66 | the index is 0 when no name parses, including no names; otherwise it is some name's number and no name has a greater one |
| Recovery.LastProcessed | backend/app/recovery_tool.py:49-66 | what `get_last_processed_index` reports; specified by `Recovery.LastProcessedIsGreatest`, and computed by `Recovery.GetLastProcessedIndex` |
| Recovery.RecoverFromCheckpoint | backend/app/recovery_tool.py:11-27 | `None` exactly for no names; the sort key's `ValueError` exactly when some name does not parse; otherwise one of the names |
| Recovery.RecoveredIsLastSorted | backend/app/recovery_tool.py:18-27 | the chosen name is where a stable ascending sort ends: no name has a greater number and every later name a smaller one |
| Recovery.LastOfSorted | backend/app/recovery_tool.py:18-27 | the index a stable ascending sort leaves last holds the greatest key, and every later index a smaller key |
| Recovery.RecoveryAgreesWithIndex | backend/app/recovery_tool.py:18-64 | when every name parses, the recovered checkpoint's number is what the index query reports |
| Recovery.UnparseableNameDivergence | backend/app/recovery_tool.py:18-59 | one name without a number makes recovery fail with the sort key's `ValueError`, while the index query ignores it |
| Background.NormalizeForHost | extension/background.js:7-14 | the lower-cased hostname of a parseable address, and `''` otherwise |
| Background.NormalizedHostHasNoUpper | extension/background.js:10 | no text with an ASCII capital is ever a normalised host |
| Background.UnexpiredAllow | extension/background.js:16-19 | pruning keeps exactly the allow entries with expiry after now, unchanged |
| Background.UnexpiredCache | extension/background.js:43-46 | pruning keeps exactly the cache entries with expiry after now, unchanged |
| Background.PruneAllowLater | extension/background.js:16-19 | pruning at one time and then at a later one is pruning at the later one |
| Background.PruneCacheLater | extension/background.js:43-46 | pruning at one time and then at a later one is pruning at the later one |
| Background.Verdict | extension/background.js:29-38 | phishing only for an ok answer with a truthy `phishing` field; fetch errors and non-ok answers fail open |
| Background.AnswerOf | extension/background.js:31-35 | the backend's 400 is a non-ok answer, and every answer it gives is ok without a `phishing` field |
| Background.BackendNeverFlags | extension/background.js:29-38 | no backend answer makes the verdict phishing |
| Background.LookUp | extension/background.js:21-41 | an unexpired cached entry is returned without a backend call and the cache is only pruned; otherwise the verdict is stored for that exact url with expiry 30000 ms after the store |
| Background.FailureIsCached | extension/background.js:29-39 | after a miss, a failed or non-ok answer gives false and caches false |
| Background.StoredVerdictIsReused | extension/background.js:23-39 | a verdict just stored is reused, without a backend call, by a lookup within 30 s |
| Background.OtherEntriesKept | extension/background.js:39-46 | a lookup leaves every other unexpired entry unchanged |
| Background.Handles | extension/background.js:64 | the guard `msg?.type === 'allowHost' && msg.host`; used by `Background.AllowAfter`, `Background.Extension.AllowHost` and `Popup.ListenerReply` |
| Background.AllowAfter | extension/background.js:63-69 | a message with type `allowHost` and a host sets that host to expire `ttlMs` later, or 300000 ms when `ttlMs` is not a number; any other message, or one without a host, changes nothing |
| Background.Navigation | extension/background.js:48-60 | sub-frames and tab -1 are ignored; otherwise the allow map is pruned, an allowed host skips the check, and any other navigation is redirected exactly when the lookup says phishing |
| Background.UnparseableIsChecked | extension/background.js:52-55 | an unparseable main-frame address is still checked |
| Background.AllowedHostPasses | extension/background.js:52-66 | after `allowHost` for a host, its main-frame navigations skip the check until the override expires |
| Background.NoRedirectFromBackend | extension/background.js:55-59 | with the real backend, no navigation is redirected and no cached entry is ever phishing |
| Background.Extension.constructor | extension/background.js:3-4 | both maps start empty |
| Background.Extension.PruneAllow | extension/background.js:16-19 | the deletion loop leaves exactly the unexpired allow entries, and the cache is unchanged |
| Background.Extension.PruneCache | extension/background.js:43-46 | the deletion loop leaves exactly the unexpired cache entries, and the allow map is unchanged |
| Background.Extension.IsPhishing | extension/background.js:21-41 | the returned verdict, whether the backend was consulted, and the new cache are those of the lookup |
| Background.Extension.AllowHost | extension/background.js:63-69 | the new allow map is the one `allowHost` specifies; replies `ok` exactly when it handled the message |
| Background.Extension.OnBeforeNavigate | extension/background.js:48-60 | the redirect, whether a check ran, and both new maps are those the gate specifies; with `Valid()` kept, a main-frame navigation whose host cannot be read is always checked |
| Popup.ShouldSkipUrl | extension/popup.js:9-46 | `shouldSkipUrl`; specified by `Popup.ShouldSkipBySchemeOnly` and `Popup.WebAddressIsChecked` |
| Popup.ShouldSkipBySchemeOnly | extension/popup.js:9-46 | skipped exactly for a missing or empty url, or one whose lower case starts with one of the eight skip schemes |
| Popup.SkipUrlsHaveSkipSchemes | extension/popup.js:13-31 | every entry of `skipUrls` already starts with a skip scheme |
| Popup.WebAddressIsChecked | extension/popup.js:13-45 | an `http://` or `https://` url, in any case, is never skipped |
| Popup.SourceText | extension/popup.js:291-298 | fixed labels for `database`, `model` and `error`; any other non-empty source itself; the fallback label for a missing or empty one |
| Popup.BackendSourceShownVerbatim | extension/popup.js:291-298 | the backend's sources are shown as they are |
| Popup.MessageFor | extension/popup.js:146-192 | the plain message exactly for source `database`; the percentage message exactly for `model` with a non-null confidence; the generic one otherwise |
| Popup.ViewFor | extension/popup.js:121-132 | the safe view exactly for `legitimate`, the danger view exactly for `phishing`, and the unknown view otherwise, with the message the source selects |
| Popup.BackendAnswerView | extension/popup.js:121-132 | a backend answer, if one were delivered to the popup, would show the generic danger view exactly when blacklisted, and unknown for every other answer, including `safe`; none is delivered (`Popup.CheckUrlShowsError`) |
| Popup.CheckRequest | extension/popup.js:90-93 | the popup's request has type `checkUrl` |
| Popup.ListenerReply | extension/background.js:63-69 | the only runtime listener replies exactly to a handled `allowHost` message, and its `{ ok: true }` has no `url` |
| Popup.AfterCheck | extension/popup.js:88-103 | the result screen exactly for a reply with a non-empty `url`, showing the view its fields select; the error view for a missing reply, a reply without `url` and a rejection |
| Popup.CheckUrlShowsError | extension/popup.js:88-103 | the `checkUrl` request is not handled, gets no reply, and the popup shows its error view, as it does for a rejection |
| Popup.NoMessageReachesResult | extension/background.js:63-69 | whatever message the popup sends, the listener's reply leads to the error view |
| Popup.PageTypeOf | extension/popup.js:206-225 | new tab when the url contains `new-tab` or `newtab`, then Chrome page, then about page, then extension page, tested in that order, each in both directions |
| Popup.ExtensionPageReached | extension/popup.js:222-224 | a `chrome-extension://` url without the new-tab words is an extension page |
| Popup.NewTabFirst | extension/popup.js:213-215 | `newtab` anywhere wins over every prefix test |

## Left out

- HTTP fetching, timeouts and the HTML parser are not modelled. A fetched page is an abstract `Document` holding the attribute lists of each tag kind, the body text and the redirect count. So the 10000-character cut of the parsed text is not modelled, and neither is a parser failure after a successful fetch.
- The regular expressions are written out as predicates: the dotted quad, the shortener list, the two character classes, the mouse-over script, the right-click test and the `<a href=` count. No general regex engine is modelled.
- Features.Band: the ratio detectors compare float percentages; the model compares by integer cross-multiplication, which can differ from float rounding exactly at a cut point.
- PyUrl.UrlSplit: the `ipaddress` validation of a bracketed host and the NFKC check of the netloc are not modelled. For a bracketed host that is not an IP literal, such as `[a:b]`, Python 3.12 raises `ValueError`, so `extract_domain` falls back to the lower-cased input; the model instead drops the brackets, and `Server.ExtractDomain` gives the host text.
- PyUrl.UrlSplitOfHttp: it admits any bracketed host without `@`, `[` and `]`, also those that Python 3.12 rejects as not being IP literals.
- StrUtil.Lower: only ASCII letters are lower-cased. Non-ASCII letters keep their case, where Python `lower()` and JavaScript `toLowerCase` change them. The popup's prefixes are ASCII, so this matters only for non-ASCII hostnames: in `Server.ExtractDomain`, in `Background.NormalizeForHost`, and in `Server.PatternMatches`, which reads the regex option `i` as ASCII lower-casing of both sides, where MongoDB's case-insensitive match also folds non-ASCII letters (a stored `http://É.com` matches the key `é.com` there but not in the model).
- Server.StoredAddressMatches: only `.` is escaped in the pattern; keys are taken to hold no other regex metacharacter.
- MongoDB, FastAPI routing, the lifespan hook, `elapsed_ms` and uvicorn are not modelled; the stores are sequences of their values.
- pandas CSV reading and writing, the seeded sampling, `time.sleep`, `gc.collect`, `glob`, `os.path.getsize`, `input()` and all printing are not modelled. A checkpoint write is an entry in the returned log, and a checkpoint read is the parameter `loaded`.
- Runner.RowOf: the `TypeError` of `url[:80]` is modelled only for a missing address; a non-text address value is not modelled.
- Runner.SafeFeatureExtraction: `start_idx` and `batch_size` are natural numbers, so a negative step of `range` is not modelled. The column-count check of the `DataFrame` constructor is not modelled either.
- Recovery.PyInt: digits outside ASCII, which `int()` also accepts, and `_` separators are not modelled.
- Background.AllowAfter: whether `ttlMs` is a number is given as an integer option; a non-integer, NaN or non-text host is not modelled.
- Background.LookUp and Background.Navigation treat each `isPhishing` call as one atomic step. The `await`s of the cache miss let two navigations interleave: both miss, both fetch, and the later store wins. This is not modelled.
- Chrome APIs, the async message passing, `encodeURIComponent`, the blocked-page redirect URL and the DOM writes of the popup are not modelled.
- `formatConfidence` is float arithmetic and is not modelled.
- `backend/app/url_feature_extraction.py` wraps a feature module that is not part of this model.
- `backend/app/DataFiles/process_dataset.py` is a pandas export script and is not part of this model.
- `extension/blocked.js`, `extension/options.js` and `extension/test.js` are UI presentation and settings plumbing and are not part of this model.
