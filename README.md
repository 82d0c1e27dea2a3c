# rootx core, modelled in Dafny

rootx is a Go toolkit for HTTP services. This project models its
self-contained pieces of sequential logic and proves what they promise:

- the per-IP rate-limiter registry (`pkg/core/limiter/limiter.go`), in
  `limiter.dfy`: a class whose `ips` map is created empty, filled lazily,
  touched on lookup and swept by age;
- the admission middleware (`pkg/core/middleware/limiterMidleware.go`), in
  `limiter_middleware.dfy`. It covers the header-priority client-IP
  resolver, the white- and blacklists built from comma-separated settings,
  the whitelist-before-blacklist dispatch, the configuration defaults, the
  rate-limit headers and the 429 answer with `Retry-After`;
- the quote- and comment-aware splitter (`pkg/splitters/splitters.go`), in
  `splitters.dfy`: a character-by-character state machine (`Step`, `Run`,
  `Tokens`) and the loop of `splitArgs` proved to compute it. Input runes
  are compared with the UTF-8 bytes of the separator and the comment
  marker, as the Go code indexes them;
- the dot-path JSON query (`pkg/jsonquery/jsonqury.go`), in
  `jsonquery.dfy`: a JSON tree datatype, the `JQ` class with `Query` and its
  typed accessors;
- pagination and ordering (`pkg/query/query.go`), in `paging.dfy`;
- `Slugify` and its three rune maps (`pkg/utils/utils.go`), in `slug.dfy`;
- validation-error reporting (`pkg/utils/validation.go`), in
  `validation.dfy`. It covers the message table, the JSON field map built
  over a field tree that stands in for reflection, and the loop that fills
  the caller's error map;
- configuration defaulting and validation (`pkg/core/config/main.go`), in
  `config.dfy`;
- the bearer-token check of `AuthMiddleware`
  (`pkg/core/middleware/authMiddleware.go`), in `auth.dfy`.

`http.dfy` holds the header lookup that both middlewares use.

The Go library functions these call are modelled in `gostrings.dfy` and
`gotime.dfy`:

- `strings.Split` with a one-character separator, `strings.Join` and
  `strings.TrimSpace`;
- `strconv.Itoa`, `strconv.ParseInt` in base 10, and the value
  `strconv.Atoi` returns beside its error;
- `net.SplitHostPort`;
- the UTF-8 encoding of a string, byte by byte, as indexing a Go string
  reads it;
- truncating integer division, `time.Time.Unix` and `time.ParseDuration`
  for whole-number components.

`wrappers.dfy` holds `Option` and `Result`.

Conventions:

- Time is a count of nanoseconds, and the present instant is an explicit
  `now` parameter.
- The token bucket of `golang.org/x/time/rate` is an opaque handle with its
  rate and burst. What `Allow()` answers and the printed token count are
  parameters of the request handler.
- The environment is a map. Headers are a map from canonical name to value.
- Integers are unbounded. The int64 range is stated where the code depends
  on it: the parsers, `Itoa` round trips and the offset finding.

Where the behaviour of the code differs from its own comments or from the
documented design, the model follows the code:

- The resolved client IP can be the empty string. This happens when the
  first X-Forwarded-For element is blank; see `FirstHopOf`.
- `Query("")` and `Query(".")` both return the whole document, because ""
  splits into no segments; see `WholeDocument`.
- An expression starting with "." first looks up the key ""; see `LeadingDot`.
- A multi-character separator leaves its already-matched prefix in the
  token before the split; see `MultiCharSeparatorKeepsPrefix`.
- A separator or comment marker beyond ASCII is matched by its bytes, each
  read as the rune of that code. "é" therefore never splits "aéb", but it
  splits "aÃ©b" into "aÃ" and "b", and a rune from U+0100 up never
  splits anything; see `NonAsciiSeparatorIgnored`,
  `SeparatorBytesMatchRunes` and `WideTextIsOneToken`.

## Model

| member | source | states |
|---|---|---|
| Limiter.TokenBucket.constructor | pkg/core/limiter/limiter.go:45 | a new bucket carries the registry's rate and burst |
| Limiter.IPRateLimiter.constructor | pkg/core/limiter/limiter.go:25-32 | a new registry has no entries, the given rate and burst, and maxAge of one hour |
| Limiter.IPRateLimiter.AddIP | pkg/core/limiter/limiter.go:41-53 | `ip` maps to a fresh bucket seen at `now`, replacing any previous entry; every other key and entry is unchanged; `ip` is recorded as inserted |
| Limiter.IPRateLimiter.GetLimiter | pkg/core/limiter/limiter.go:56-71 | a present ip returns its existing bucket, only its lastSeen becomes `now`, and the key set is unchanged; an absent ip gains a fresh entry and the count grows by exactly one |
| Limiter.IPRateLimiter.Cleanup | pkg/core/limiter/limiter.go:84-93 | the map after the sweep is exactly `Survivors` of the old map, with every bucket invariant kept |
| Limiter.SurvivorsExact | pkg/core/limiter/limiter.go:88-92 | an entry survives iff `now - lastSeen <= maxAge`; survivors are untouched; the map never grows |
| Limiter.SurvivorsIdempotent | pkg/core/limiter/limiter.go:88-92 | a second sweep at the same instant removes nothing |
| Limiter.RecentEntrySurvives | pkg/core/limiter/limiter.go:89 | an entry exactly `maxAge` old still survives, because the comparison is strict |
| Limiter.IPRateLimiter.GetIPCount | pkg/core/limiter/limiter.go:96-100 | the count is the number of keys in the map |
| Http.HeaderGet | pkg/core/middleware/authMiddleware.go:23 | a present field's value; an absent field reads as "" |
| RateLimitMiddleware.IPLists.IsIPWhitelisted | pkg/core/middleware/limiterMidleware.go:34-36 | true exactly for an IP in the whitelist set |
| RateLimitMiddleware.IPLists.IsIPBlacklisted | pkg/core/middleware/limiterMidleware.go:39-41 | true exactly for an IP in the blacklist set |
| RateLimitMiddleware.RemoteHost | pkg/core/middleware/limiterMidleware.go:65-69 | the host from SplitHostPort, or RemoteAddr unchanged when it does not split |
| RateLimitMiddleware.ClientIP | pkg/core/middleware/limiterMidleware.go:44-70 | CF-Connecting-IP, else X-Real-IP, else the trimmed first comma element of X-Forwarded-For, else the RemoteAddr host; the first non-empty header wins |
| RateLimitMiddleware.ForwardedForFirstHop | pkg/core/middleware/limiterMidleware.go:56-61 | the IP is the trimmed text before the first comma of X-Forwarded-For, or the trimmed whole header when it has no comma |
| RateLimitMiddleware.FirstHopOf | pkg/core/middleware/limiterMidleware.go:58-60 | for "first,rest" the IP is first, trimmed; it is first itself when first has no outer white space, and "" when first is blank |
| RateLimitMiddleware.RemoteAddrFallback | pkg/core/middleware/limiterMidleware.go:64-69 | with no proxy header, an address without ':' is returned whole, and a split address yields its host before ":port" or inside "[...]:port" |
| RateLimitMiddleware.RemoteAddrHost | pkg/core/middleware/limiterMidleware.go:65-69 | with no proxy header, "host:port" resolves to host |
| RateLimitMiddleware.CloudflareFirstExample | pkg/core/middleware/limiterMidleware.go:46-48 | CF-Connecting-IP is preferred over X-Real-IP |
| RateLimitMiddleware.LoadRateLimitConfig | pkg/core/middleware/limiterMidleware.go:121-139 | an unparseable duration becomes one minute; a limit <= 0 becomes 100; enabled is copied; each IP list is exactly strings.Split of its setting on ",": no element holds a comma, and the elements joined with "," give back the setting (with GoStrings.SplitJoin, no other list does both) |
| RateLimitMiddleware.ListEntriesMembers | pkg/core/middleware/limiterMidleware.go:141-155 | an IP is named by a list iff it is non-empty and some element trims to it |
| RateLimitMiddleware.EntriesSound | pkg/core/middleware/limiterMidleware.go:144-145 | every inserted IP is a non-empty trimmed element, and that element is returned as a witness |
| RateLimitMiddleware.EntriesComplete | pkg/core/middleware/limiterMidleware.go:144-145 | every non-empty trimmed element is inserted |
| RateLimitMiddleware.ListEntriesSnoc | pkg/core/middleware/limiterMidleware.go:143-147 | one more element adds exactly its trimmed text, or nothing when that text is empty |
| RateLimitMiddleware.AddEntries | pkg/core/middleware/limiterMidleware.go:143-147 | the loop leaves the set as the old set plus the entries the list names |
| RateLimitMiddleware.IPLists.constructor | pkg/core/middleware/limiterMidleware.go:28-31 | both package-level sets start empty |
| RateLimitMiddleware.IPLists.InitializeIPLists | pkg/core/middleware/limiterMidleware.go:141-155 | each set only grows, by exactly the entries its configured list names |
| RateLimitMiddleware.RetryAfterSeconds | pkg/core/middleware/limiterMidleware.go:171 | the window in whole seconds, truncated toward zero |
| RateLimitMiddleware.RateLimitHeaders | pkg/core/middleware/limiterMidleware.go:157-162 | exactly the three rate-limit headers: the limit, the given remaining text, and the Unix second of `now + duration` |
| RateLimitMiddleware.RateLimitExceeded | pkg/core/middleware/limiterMidleware.go:164-178 | status 429; Retry-After and Content-Type are added and other headers kept; the message holds the same seconds as Retry-After |
| RateLimitMiddleware.LimitHeaderRoundTrip | pkg/core/middleware/limiterMidleware.go:159 | the X-RateLimit-Limit header parses back to the configured limit |
| RateLimitMiddleware.ResetHeaderRoundTrip | pkg/core/middleware/limiterMidleware.go:161 | X-RateLimit-Reset parses back to the second in which `now + duration` falls |
| RateLimitMiddleware.RetryAfterRoundTrip | pkg/core/middleware/limiterMidleware.go:171-176 | Retry-After parses back to s with `s * second <= duration < (s + 1) * second` |
| RateLimitMiddleware.TenSecondWindow | pkg/core/middleware/limiterMidleware.go:171 | a ten-second window gives "Retry-After: 10" |
| RateLimitMiddleware.LimiterMiddleware | pkg/core/middleware/limiterMidleware.go:73-85 | when disabled, the result is `next` itself and nothing changes; otherwise the lists are extended from the configuration and a fresh empty registry with the configured rate and burst is created |
| RateLimitMiddleware.ServeHTTP | pkg/core/middleware/limiterMidleware.go:86-118 | whitelisted: forwarded and registry untouched, even when blacklisted; else blacklisted: 403 "Access denied", no headers, registry untouched; else entry fetched or created and touched, headers set, then 429 or forwarded with the IP and active-IP count |
| RateLimitMiddleware.LimitRequest | pkg/core/middleware/limiterMidleware.go:102-117 | only the client's entry changes, it is seen at `now` and keeps its bucket if it had one; the headers are set before the Allow decision |
| Splitters.Step | pkg/splitters/splitters.go:35-100 | one character keeps the state invariant: match indices within the separator's and the marker's bytes, at most one quote open, no comment inside quotes or without a marker |
| Splitters.Run | pkg/splitters/splitters.go:35-100 | scanning any input keeps the state invariant |
| Splitters.Tokens | pkg/splitters/splitters.go:19-108 | an error exactly when the separator is empty, whatever the quotes |
| Splitters.SplitWithCommentSign | pkg/splitters/splitters.go:19-108 | the loop returns exactly `Tokens` |
| Splitters.SplitArgs | pkg/splitters/splitters.go:9-11 | `Tokens` without a comment marker |
| Splitters.SplitSQL | pkg/splitters/splitters.go:14-16 | `Tokens` with the "--" comment marker |
| Splitters.RunAppend | pkg/splitters/splitters.go:35 | scanning a + b is scanning b from the state after a |
| Splitters.EmptyInput | pkg/splitters/splitters.go:103-107 | empty input gives no tokens |
| Splitters.InsideSingleQuotes | pkg/splitters/splitters.go:53-58 | inside single quotes, text without a quote only extends the token; no separator ends it |
| Splitters.InsideDoubleQuotes | pkg/splitters/splitters.go:59-64 | the same inside double quotes |
| Splitters.InsideComment | pkg/splitters/splitters.go:47-50 | inside a comment, everything up to a newline, separators included, is copied into the token |
| Splitters.NewlineClosesComment | pkg/splitters/splitters.go:39-44 | a newline closes any comment, resets the marker index and is appended to the token |
| Splitters.SplitArgsHasNoComments | pkg/splitters/splitters.go:9-11 | SplitArgs never enters comment mode |
| Splitters.DashDashOpensComment | pkg/splitters/splitters.go:68-76 | for SplitSQL, an unquoted "--" opens a comment |
| Splitters.KeepQuotesIrrelevant | pkg/splitters/splitters.go:54-62 | without quote characters in the input, keepQuotes makes no difference |
| Splitters.KeepQuotesStep | pkg/splitters/splitters.go:42-99 | with keepQuotes, every character either ends the token as the last character of a separator match or is appended to it |
| Splitters.RunRebuilds | pkg/splitters/splitters.go:42-99 | with keepQuotes, the emitted tokens and the pending one, joined with the separator's last byte, rebuild the input |
| Splitters.TokensRebuild | pkg/splitters/splitters.go:89-105 | with keepQuotes, joining the tokens with the separator's last byte (its last character when ASCII) gives back the input, or the input minus that final character |
| Splitters.MultiCharSeparatorKeepsPrefix | pkg/splitters/splitters.go:85-99 | with the separator "ab", "xaby" splits into "xa" and "y" |
| Splitters.EmptyTokens | pkg/splitters/splitters.go:89-105 | "a,,b," gives "a", "", "b": inner empty tokens are kept, a trailing one is not |
| Splitters.QuotedSeparator | pkg/splitters/splitters.go:53-58 | "a,'b,c'" gives "a" and "b,c": the quoted separator does not split and the quotes are dropped |
| Splitters.QuotedWhole | pkg/splitters/splitters.go:53-58 | a single-quoted text without quotes is one token, without its quotes, for any separator |
| Splitters.SplitArgsJoin | pkg/splitters/splitters.go:84-105 | on quote-free text, splitting a join of separator-free parts with a one-character ASCII separator gives back the parts |
| Splitters.WideRuneStep | pkg/splitters/splitters.go:69-99 | a rune from U+0100 up matches no byte of the separator or the marker and is appended to the token |
| Splitters.WideRunesExtendToken | pkg/splitters/splitters.go:35-100 | a run of such runes only extends the token and emits nothing |
| Splitters.WideTextIsOneToken | pkg/splitters/splitters.go:19-108 | text made only of runes from U+0100 up is one token, whatever the separator |
| Splitters.NonAsciiSeparatorIgnored | pkg/splitters/splitters.go:85 | the separator "é" leaves "aéb" one token, because the rune é equals neither of its bytes |
| Splitters.SeparatorBytesMatchRunes | pkg/splitters/splitters.go:85-93 | the separator "é" splits "aÃ©b" into "aÃ" and "b", because those two runes carry its bytes |
| JsonQuery.IsArrayPath | pkg/jsonquery/jsonqury.go:180-182 | an array path has at least its two brackets |
| JsonQuery.ParseArrayIndex | pkg/jsonquery/jsonqury.go:184-190 | succeeds iff the text between the brackets is a sign and digits within int64, with that value |
| JsonQuery.Segment | pkg/jsonquery/jsonqury.go:57-83 | a key segment needs an object holding that key; an index segment needs a valid index, an array and an index in range; each failure has its own error: a non-object, a missing key, invalid index text, a non-array, and an index out of range, negative or past the end, whatever its spelling |
| JsonQuery.JQ.constructor | pkg/jsonquery/jsonqury.go:41-43 | the handle holds the given document |
| JsonQuery.JQ.Query | pkg/jsonquery/jsonqury.go:46-85 | the loop returns `Eval`: "." is the document, otherwise the segments applied in order with the first failure deciding |
| JsonQuery.JQ.QueryToMap | pkg/jsonquery/jsonqury.go:88-99 | succeeds iff the query does and yields an object, returning its fields; otherwise the wrapped query error or a type error |
| JsonQuery.JQ.QueryToArray | pkg/jsonquery/jsonqury.go:102-113 | the same for arrays |
| JsonQuery.JQ.QueryToString | pkg/jsonquery/jsonqury.go:116-127 | the same for strings |
| JsonQuery.JQ.QueryToBool | pkg/jsonquery/jsonqury.go:165-176 | the same for booleans |
| JsonQuery.JQ.QueryToFloat64 | pkg/jsonquery/jsonqury.go:151-162 | the same for numbers, with a number as an exact real |
| JsonQuery.JQ.QueryToInt64 | pkg/jsonquery/jsonqury.go:130-148 | a number is truncated toward zero; a string succeeds iff it parses as base-10 int64; anything else is an error |
| JsonQuery.Truncate | pkg/jsonquery/jsonqury.go:138 | the integer part of a number, rounded toward zero |
| JsonQuery.WalkAppend | pkg/jsonquery/jsonqury.go:57-83 | walking p + q is walking q from where p ended, or p's error |
| JsonQuery.WholeDocument | pkg/jsonquery/jsonqury.go:47-49 | "." and "" both select the whole document |
| JsonQuery.EvalPath | pkg/jsonquery/jsonqury.go:51-83 | keys joined with "." select through those keys in order |
| JsonQuery.LeadingDot | pkg/jsonquery/jsonqury.go:51 | ".k" looks up "" and then k |
| JsonQuery.QuotedKey | pkg/jsonquery/jsonqury.go:51 | a quoted segment is one key, dots included, quotes removed |
| JsonQuery.IndexSelects | pkg/jsonquery/jsonqury.go:64-71 | "[i]" selects element i for every i in range |
| JsonQuery.IndexPastEnd | pkg/jsonquery/jsonqury.go:68-70 | an index at or past the end is out of range |
| JsonQuery.SegmentAsWritten | pkg/jsonquery/jsonqury.go:57-83 | the step as written panics exactly on a valid negative index into an array |
| JsonQuery.SegmentAgrees | pkg/jsonquery/jsonqury.go:68-71 | outside that case the step as written and `Segment` agree |
| JsonQuery.NegativeIndexPanics | pkg/jsonquery/jsonqury.go:68-71 | "[-n]" panics as written on any array, and is out of range in `Segment` |
| Paging.Get | pkg/query/query.go:26 | the first value of the parameter, or "" |
| Paging.PositiveParam | pkg/query/query.go:26-35 | Atoi's value when positive, else the default; a syntax error gives the default and an overflow the clamped value |
| Paging.Offset | pkg/query/query.go:37 | the offset is never negative |
| Paging.OffsetStep | pkg/query/query.go:108 | page 1 starts at row 0, and each page starts one page size after the previous one |
| Paging.RawPagination | pkg/query/query.go:95-113 | the query unchanged, then exactly " LIMIT <pageSize> OFFSET <offset>" |
| Paging.Pagination | pkg/query/query.go:24-42 | the same text, and the arguments passed through |
| Paging.LimitClauseParses | pkg/query/query.go:110 | the clause splits into its five words and both numbers parse back |
| Paging.CeilDiv | pkg/query/query.go:72 | the least integer c with `a <= c * b` |
| Paging.Paginate | pkg/query/query.go:59-78 | previousPage iff page > 1, equal to page - 1; nextPage iff offset + pageSize < totalItems, equal to page + 1; totalPages = lastPage = the ceiling of totalItems / pageSize; firstPage 1 |
| Paging.NextPageExists | pkg/query/query.go:65-77 | a next page exists only before the last page, and is at most the last page |
| Paging.PastTheEnd | pkg/query/query.go:60-68 | a page beyond the data has a previous page and no next one |
| Paging.OrderBy | pkg/query/query.go:171-186 | the first orderBy value, a single space and the first sortBy value; without parameters the order is "created_at asc"; a missing orderBy defaults to created_at and a missing sortBy to asc |
| Paging.OrderBySplits | pkg/query/query.go:183 | space-free values split back into the column and the direction |
| Paging.Wrap64 | pkg/query/query.go:37 | reduction to int64 two's complement, the identity within range |
| Paging.OffsetAsWritten | pkg/query/query.go:37 | the int64 product agrees with `Offset` whenever the true offset fits |
| Paging.OffsetWraps | pkg/query/query.go:37 | page 2^62 + 1 with page size 2 wraps to the most negative offset |
| Paging.LargePageParses | pkg/query/query.go:26-35 | that page and page size come from an ordinary query string |
| Paging.NextPageAsWritten | pkg/query/query.go:57-68 | with offset, offset + pageSize and page + 1 on int64, the next page agrees with the unbounded decision whenever page * pageSize fits |
| Paging.PaginateAsWritten | pkg/query/query.go:44-78 | Paginate's metadata with that next page; equal to `Paginate` whenever page * pageSize fits |
| Paging.LastPageParses | pkg/query/query.go:46-55 | "page=9223372036854775807" gives that page and the default page size 10 |
| Paging.NextPageWraps | pkg/query/query.go:57-67 | on that page with no rows the offset is -20 and the next page is MinInt64, where the unbounded decision gives none |
| Paging.NextPageExistsAsWritten | pkg/query/query.go:65-77 | so the int64 code announces a next page on a page that is not before the last one, and `Paginate` does not |
| Slug.IsAlphanumeric | pkg/utils/utils.go:90-92 | only ASCII runes are alphanumeric, and never '-' or ' ' |
| Slug.LowerRune | pkg/utils/utils.go:81-85 | 'A'-'Z' moves up by 32 into 'a'-'z'; every other rune is unchanged |
| Slug.NonAlphanumericReplaced | pkg/utils/utils.go:54-64 | same length; ASCII letters and digits kept, every other rune replaced |
| Slug.SpacesReplaced | pkg/utils/utils.go:66-76 | same length; exactly the ' ' runes replaced |
| Slug.Lowered | pkg/utils/utils.go:78-88 | same length; each rune lowered by `LowerRune` |
| Slug.ReplaceNonAlphanumeric | pkg/utils/utils.go:54-64 | the loop writes `NonAlphanumericReplaced` |
| Slug.ReplaceSpaces | pkg/utils/utils.go:66-76 | the loop writes `SpacesReplaced` |
| Slug.ToLower | pkg/utils/utils.go:78-88 | the loop writes `Lowered` |
| Slug.Slugify | pkg/utils/utils.go:41-52 | the three maps composed in order |
| Slug.SlugPointwise | pkg/utils/utils.go:41-92 | the slug has the input's length and each rune depends only on its input rune |
| Slug.SlugAlphabet | pkg/utils/utils.go:41-92 | a slug holds only 'a'-'z', '0'-'9' and '-' |
| Slug.SlugIdempotent | pkg/utils/utils.go:41-52 | slugifying a slug changes nothing |
| Slug.SlugKeeps | pkg/utils/utils.go:56-62 | alphanumerics are kept, lowered, and every other rune becomes '-' |
| Slug.LoweredIdempotent | pkg/utils/utils.go:78-88 | lowering twice is lowering once |
| Validation.FormatErrorMessage | pkg/utils/validation.go:54-107 | the message starts with the field; an unlisted tag gives "<field> is invalid"; a parameterised tag holds the parameter verbatim after its fixed text |
| Validation.ParamTags | pkg/utils/validation.go:59-103 | exactly fifteen tags quote their parameter |
| Validation.ParamIgnored | pkg/utils/validation.go:56-105 | other tags' messages do not depend on the parameter |
| Validation.MessageIgnoresGoName | pkg/utils/validation.go:23 | the message names the key it is filed under, never the Go field name |
| Validation.AssignContents | pkg/utils/validation.go:145 | after the writes, a key holds its last write or its old value, and the keys are the old ones plus those written |
| Validation.ExtractFields | pkg/utils/validation.go:124-152 | the loop with its recursion writes the visited (Go name, JSON name) pairs in order |
| Validation.GetJSONFieldMap | pkg/utils/validation.go:110-157 | the result is `FieldMap` of the value |
| Validation.FieldMap | pkg/utils/validation.go:115-120 | a value that is neither a struct nor a pointer to one gives the empty map |
| Validation.TaggedName | pkg/utils/validation.go:136-139 | a tag "name,options" gives name |
| Validation.NestedName | pkg/utils/validation.go:140-142 | a field inside a nested struct gets "parent." before its name |
| Validation.SkippedContributesNothing | pkg/utils/validation.go:131-133 | an unexported or "-" field writes nothing and is not looked into |
| Validation.EntriesWith | pkg/utils/validation.go:17-24 | one (key, message) pair per error |
| Validation.ErrorMap.constructor | pkg/utils/validation.go:14 | the caller's map as given |
| Validation.ValidateAndCollectErrors | pkg/utils/validation.go:14-27 | the caller's map is filled in place with one entry per error, in order, and returned |
| Validation.Collected | pkg/utils/validation.go:17-24 | each error's key, its JSON name or else its Go name, holds the message of the last error filed there; other keys keep their entries |
| AppConfig.Getenv | pkg/core/config/main.go:126 | an unset variable reads as "" |
| AppConfig.Config.constructor | pkg/core/config/main.go:68 | every field starts at its zero value |
| AppConfig.Config.SetDefaultValues | pkg/core/config/main.go:88-104 | the four defaults apply only to zero fields; nothing else changes; a defaulted config is left unchanged; an empty StorageDisk never fails validation afterwards |
| AppConfig.Config.Validate | pkg/core/config/main.go:107-122 | success iff DBHost non-empty, DBPort > 0, StorageDisk local or s3, JwtSecretKey non-empty; otherwise the first failing check in that order |
| AppConfig.ErrorMessage | pkg/core/config/main.go:109-118 | each validation failure has a non-empty message |
| AppConfig.ErrorMessageInjective | pkg/core/config/main.go:109-118 | distinct failures have distinct messages |
| AppConfig.LoadSecretFromEnv | pkg/core/config/main.go:125-131 | an error iff the variable is unset or empty, otherwise its value |
| Auth.Authorize | pkg/core/middleware/authMiddleware.go:21-46 | missing header: 401 missing token; bad format: 401 invalid format; the claims are granted iff the header is well formed and its token validates; a validation error gives 401 "Invalid Token: " and the error |
| Auth.WellFormed | pkg/core/middleware/authMiddleware.go:29-33 | a well-formed header starts with "Bearer " |
| Auth.Token | pkg/core/middleware/authMiddleware.go:35 | the token is all of the header after "Bearer ", and holds no space |
| Auth.WellFormedExactly | pkg/core/middleware/authMiddleware.go:29-35 | well formed iff the header is "Bearer " and a space-free token, which is exactly what gets validated |
| Auth.BearerToken | pkg/core/middleware/authMiddleware.go:29 | "Bearer " and a space-free token split into those two parts |
| Auth.BearerIsValidated | pkg/core/middleware/authMiddleware.go:35-44 | for "Bearer <t>" the outcome is decided by validating t alone |
| GoStrings.Split | pkg/core/middleware/authMiddleware.go:29 | at least one part, and no part holds the separator |
| GoStrings.JoinSplit | pkg/core/middleware/limiterMidleware.go:136-137 | joining the parts with the separator gives back the input |
| GoStrings.SplitJoin | pkg/core/middleware/limiterMidleware.go:136-137 | splitting a join of separator-free parts gives back the parts |
| GoStrings.SplitHead | pkg/core/middleware/limiterMidleware.go:58-60 | the first part is the longest separator-free prefix |
| GoStrings.TrimSpace | pkg/core/middleware/limiterMidleware.go:144 | the part between the leading and trailing white space: everything before it and everything after it is white space, and it has no white space at either end |
| GoStrings.TrimSpaceEmpty | pkg/core/middleware/limiterMidleware.go:144 | the result is "" iff the input is all white space |
| GoStrings.TrimSpaceUnchanged | pkg/core/middleware/limiterMidleware.go:60 | a string without outer white space is unchanged |
| GoStrings.Itoa | pkg/query/query.go:110 | a leading '-' iff the number is negative |
| GoStrings.NatToStringValue | pkg/query/query.go:110 | the digits printed denote the number |
| GoStrings.ParseInt | pkg/jsonquery/jsonqury.go:140 | success iff a sign and one or more digits denoting a value within int64, with that value |
| GoStrings.ParseItoa | pkg/query/query.go:110 | parsing what Itoa printed gives back the number |
| GoStrings.AtoiValue | pkg/query/query.go:26 | the parsed value; 0 on a syntax error; the clamped bound on overflow |
| GoStrings.RuneBytes | pkg/splitters/splitters.go:69 | one to four bytes, each below 0x100; one byte exactly for ASCII; a lead byte from 0xC0 and continuation bytes in 0x80..0xBF otherwise |
| GoStrings.RuneBytesDecode | pkg/splitters/splitters.go:69 | the bytes decode back to the rune |
| GoStrings.Utf8 | pkg/splitters/splitters.go:85-87 | at least one byte per rune, each below 0x100; an ASCII string is its own encoding |
| GoStrings.SplitHostPort | pkg/core/middleware/limiterMidleware.go:65 | on success "host:port" or "[host]:port" is rebuilt from the result with a colon-free port; no ':' gives a missing-port error |
| GoStrings.SplitHostPortJoin | pkg/core/middleware/limiterMidleware.go:65 | a plain host and port joined with ':' split back into themselves |
| GoTime.TruncDiv | pkg/core/middleware/limiterMidleware.go:171 | the quotient truncated toward zero |
| GoTime.UnixSeconds | pkg/core/middleware/limiterMidleware.go:161 | the second in which the instant falls |
| GoTime.ParseDuration | pkg/core/middleware/limiterMidleware.go:122 | a success is within int64, and "" is an error |
| GoTime.ParseComponentOf | pkg/core/middleware/limiterMidleware.go:122 | one "<digits><unit>" component is consumed and its value in nanoseconds returned |
| GoTime.ParseDurationSeconds | pkg/core/middleware/limiterMidleware.go:122 | "10s" is ten seconds |
| GoTime.ParseDurationCompound | pkg/core/middleware/limiterMidleware.go:122 | "1h30m" is ninety minutes |
| GoTime.ParseDurationRejects | pkg/core/middleware/limiterMidleware.go:122-125 | "10" (no unit) and "5d" (unknown unit) are errors, so the one-minute default applies |
| GoTime.ParseDurationWraps | pkg/core/middleware/limiterMidleware.go:122-125 | two components of 2^63 ns each, such as "9223372036854775808ns9223372036854775808ns", parse as 0 because time.ParseDuration adds in uint64 and the total wraps; the one-minute default then does not apply |

## Left out

- The token accounting of `golang.org/x/time/rate` is not modelled. `Allow()` is a boolean parameter of the handler, and the `%.0f` remaining-tokens text is a string parameter.
- `cleanupRoutine`, its ticker and goroutine, and the `sync.RWMutex` locking are concurrency. `Cleanup` is a method taking an explicit `now`.
- Registry entries are values in the map, so the aliasing through the `*limiterEntry` pointer is not modelled. Its only use, updating `lastSeen`, is modelled as a map update.
- `time.Now()` is the `now` parameter. The wall-clock value of `X-RateLimit-Reset` is not fixed beyond being the Unix second of `now + duration`.
- Log lines (`log.Println`, `log.Printf`) and JSON response bodies (`WriteJSONError`) are not modelled. The status, the message and the headers are.
- `http.Header` canonicalization of field names is not modelled. Headers are looked up by the exact names the code uses.
- `GoTime.ParseDuration`: fractional components such as "1.5h" are reported as a failure instead of being parsed. A leading '+' is accepted as in Go. The overflow tests of time.ParseDuration are modelled on uint64, including the wrap of the running total modulo 2^64, so the total of the components is not promised to grow from one component to the next.
- `JsonQuery.JQ.QueryToFloat64`: a number is an exact real, not an IEEE-754 float64.
- `JsonQuery.JQ.QueryToInt64`: the float64-to-int64 conversion is truncation of an exact real. Go's implementation-defined result for numbers outside the int64 range is not modelled.
- `Paging.Paginate`: the page count is exact integer ceiling division, not `math.Ceil` on float64 values. The two agree while the totals are exactly representable as float64. The offset, offset + pageSize and page + 1 are unbounded integers; the int64 wrap of all three is modelled separately, in `PaginateAsWritten`; see Findings. The database query and row loop of `Paginate` are not modelled.
- Paging.NextPageExists: it holds of the unbounded `Paginate` only. The int64 code breaks it at page=9223372036854775807 with no rows, as `NextPageExistsAsWritten` shows; see Findings.
- `Paging.Offset`: it uses unbounded integers. The int64 wrap-around is modelled separately, in `OffsetAsWritten`; see Findings.
- Reading the configuration with viper (`LoadConfig`), the mutex around it, and `GlobalConfig` are not modelled. `LoadRateLimitConfig` receives the configuration and the environment as parameters.
- `NewFileQuery` and `NewStringQuery` are not modelled, because they read files and decode JSON text. A document is a `Json` value.
- Reflection in `GetJSONFieldMap` is replaced by a field-tree datatype.
- `ValidationResponse` is not modelled; it writes JSON with the same loop as `ValidateAndCollectErrors`. The type assertion to `validator.ValidationErrors` is not modelled either; its panic on another error type is absent because the errors are given as a sequence.
- Token validation (JWT parsing) is a function parameter of `Authorize`. `GetClaimsFromContext` and the request context are not modelled.
- Random generators (`GenerateUniqueNumber`, `GenerateOTP`), `Round`, password hashing and `BodyParse*` are not modelled. They rely on randomness, floating point, bcrypt or JSON decoding.
- Validation.ValidateAndCollectErrors: the caller's map always exists, because an `ErrorMap` cannot be nil. Go's panic on the first write into a nil map (validation.go:23) is therefore not modelled.
- Splitters.SplitArgsJoin: it is stated for an ASCII separator only. A wider separator is matched by its bytes, and then splitting does not undo joining (`NonAsciiSeparatorIgnored`).
- Strings are sequences of runes. Only the splitter's separator and comment marker are read as bytes, as the Go code indexes them. The decoding of invalid UTF-8 into U+FFFD by Go's `range` over a string is not modelled.

## Findings

| source | as written | input that shows it | evidently intended | confidence | as-written member | corrected member |
|---|---|---|---|---|---|---|
| pkg/jsonquery/jsonqury.go:68-71 | only `index >= len(arr)` is checked before `arr[index]` | `Query("[-1]")` on any array: the index passes the check and the indexing panics | a negative index is an out-of-range error like an index past the end | high; not executed | JsonQuery.SegmentAsWritten, JsonQuery.NegativeIndexPanics | JsonQuery.Segment, JsonQuery.SegmentAgrees |
| pkg/query/query.go:37 | `offset := (page - 1) * pageSize` on Go's 64-bit int | page=4611686018427387905, pageSize=2: the product 2^63 wraps to -2^63, and the clause reads "OFFSET -9223372036854775808" | the offset is a non-negative row count, never negative | high; not executed | Paging.OffsetAsWritten, Paging.OffsetWraps, Paging.LargePageParses | Paging.Offset, Paging.OffsetStep |
| pkg/query/query.go:57-67 | `offset+pageSize < totalItems` and `page + 1` on Go's 64-bit int | "page=9223372036854775807" (or any longer number, which Atoi clamps to it), default pageSize 10, totalItems=0: the offset wraps to -20, -10 < 0 holds, and NextPage is -9223372036854775808 while TotalPages is 0 | a next page only before the last page | high; not executed | Paging.NextPageAsWritten, Paging.PaginateAsWritten, Paging.LastPageParses, Paging.NextPageWraps, Paging.NextPageExistsAsWritten | Paging.Paginate, Paging.NextPageExists |
