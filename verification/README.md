# issue_plat annotations — a Dafny model

issue_plat is a blog engine with reader annotations. A reader selects a passage of a
post, writes a comment and sends it. The comment is stored against the post with
selectors (a text quote and a text position) that anchor it to the passage. Other readers
reply to it. A moderator publishes or rejects comments that the heuristics held back.
The back end exists twice: as Cloudflare Pages Functions over D1, and as an Express
server over SQLite. Both share the libraries under `src/lib`. The client side is a
script that serialises the selection, a Rust/Leptos reader that builds the same
selectors, and a table-of-contents script that gives headings their ids.

This project models that core in Dafny and proves what each part promises:

- **Write pipeline.** The create and reply handlers of both back ends are modelled from
  the request down to the stored row and the response. Each step is a datatype value
  or function: origin check, body validation, Turnstile verdict, visitor cookie,
  moderation flags, post lookup, rate limiting, idempotency reservation, repeat-quote
  hold, insert and finalisation. The handlers themselves are methods over a `Store`
  class that holds the database tables.
- **Sanitizer.** `sanitizeHtml` is nine regular-expression passes. It is modelled as a
  leftmost, non-overlapping rewriter per pass (`Sanitizer.Rewrite`). Its behaviour is
  proved on a grammar of well-formed pieces and on each tag shape it rewrites. Its last
  pass misses unquoted `javascript:` hrefs (see "Findings"). The handlers store the body
  through `sanitizeHtml` as written; the corrected sanitiser (`SanitizerCorrected`), which
  removes such hrefs in every form, is used by the corrected preparation
  `Content.PrepareContentCorrected`.
- **Moderation state and validation.** Kinds, content preparation, the library
  validator and the two back ends' inline checks.
- **Store invariants.** Row ids are increasing and below the next id, a parent row
  comes before its replies, and every row belongs to a stored post. Every write
  operation keeps these invariants.
- **Read paths.** Public listing with its limit, the moderation queue, moderation
  updates, post upsert and reports.
- **HTTP helpers.** Client address, same-origin check, cookie read and write, and JSON
  responses.
- **IP hashing.** Hex encoding and the HMAC message.
- **Client selectors.** `serializeSelection` and the Leptos `current_selection` /
  `build_envelope` / grouping.
- **Heading ids.** Slugs and unique ids for headings.
- **Runtime target.** Server-side and script-side resolution of the deployment target.

Cryptography, the network, clocks, randomness, the DOM and URL parsing are parameters
of the model (a `World` value, a `mac` function, a `hostOf` function, an
`isLetterOrNumber` predicate). See "Left out" below.

## Model

| member | source | states |
|---|---|---|
| Kinds.KindNamed | src/lib/annotations/constants.ts:3-9 | the kind with a given name exists exactly when the name is listed, and it carries that name |
| Kinds.NormalizeKind | src/lib/annotations/constants.ts:15-19 | a listed kind name is kept; an absent or unlisted name becomes the default kind |
| Kinds.KindNameInjective | src/lib/annotations/constants.ts:3-9 | no two kinds share a name |
| Kinds.NormalizedKindListed | src/lib/annotations/constants.ts:15-19 | normalising always yields a listed kind |
| Kinds.NormalizeKindKeeps | src/lib/annotations/constants.ts:15-19 | a kind's own name normalises back to that kind |
| Kinds.NormalizeKindIdempotent | src/lib/annotations/constants.ts:15-19 | normalising the normalised kind's name changes nothing |
| Content.UrlLenAt | src/lib/annotations/content.ts:25 | a URL start is `http://` or `https://` in any letter case, of length 7 or 8, and nothing else counts |
| Content.NoStartInside | src/lib/annotations/content.ts:25 | no URL start can begin inside a matched `http://`/`https://`, so the global match may skip over it |
| Content.UrlCount | src/lib/annotations/content.ts:25 | each match takes at least seven characters, and the count is zero exactly when no position starts `http://` or `https://` |
| Content.UrlCountIsStarts | src/lib/annotations/content.ts:25 | the non-overlapping global match count equals the number of positions where a URL starts |
| Content.ModerationState | src/lib/annotations/constants.ts:21-23 | pending exactly when the body is too long or has more URLs than the threshold; never rejected |
| Content.Prefix | src/lib/annotations/content.ts:28 | `slice(0, n)`: the first n characters, or all of a shorter text |
| Content.PrepareContent | src/lib/annotations/content.ts:24-43 | URL count, too-long flag and state follow the thresholds; the stored HTML is the 8000-character prefix through `sanitizeHtml` as written; the kind is normalised; signals carry the count, flag and key |
| Content.PrepareContentCorrected | src/lib/annotations/content.ts:24-43 | with the corrected sanitiser: every field as `prepareAnnotationContent` gives it but the body, which is the source's body with every `javascript:` href deleted, holds none, and equals the source's body when that held none |
| Content.ModerationFlags | src/server/services.ts:4-9 | the Express flags: pending exactly when over 2000 characters or more than 3 URLs |
| Content.FlagsAgreeWithPrepare | src/server/services.ts:4-9 | the server's flags equal the shared library's count, flag and state for every body |
| Content.ApplyRepeatHold | src/lib/annotations/content.ts:46-48 | any recent repeat of the quote forces pending; otherwise the state is unchanged |
| Content.LongPlainBodyTruncated | src/lib/annotations/content.ts:26-28 | a plain body over 8000 characters is stored as its first 8000 characters and held pending |
| Validation.Normalized | src/lib/annotations/validation.ts:56-59 | the accepted body carries its kind normalised to a listed name |
| Validation.ValidateBody | src/lib/annotations/validation.ts:31-60 | checks in order and the first failure decides: a non-object or a missing field is `invalid_input` without message; then missing selector types are `invalid_input` "missing selectors"; `too_long` exactly when those pass and the name is over 32; then a reply without a truthy parent is "missing parent_id"; accepted exactly when all pass, with the kind normalised; every refusal is a 400 |
| Validation.SelectorsBeforeName | src/lib/annotations/validation.ts:40-46 | missing selectors are reported before an over-long name |
| Validation.ReplyNeedsParent | src/lib/annotations/validation.ts:48-50 | a reply without a truthy parent id is refused with "missing parent_id"; with one, an otherwise valid body is accepted |
| Validation.ValidatedBodyRevalidates | src/lib/annotations/validation.ts:31-60 | an accepted body passes validation again unchanged |
| Validation.ValidateServer | src/server/validators.ts:1-8 | a non-object or a missing field is `invalid_input`; `too_long` exactly when the fields are present and the name is over 32; then a reply without a truthy parent is "missing parent_id"; success exactly when all pass; selectors are never inspected; every refusal is a 400 |
| Validation.ServerAcceptsMore | src/server/validators.ts:1-8 | whatever the library accepts the server accepts, and with both selectors present the library accepts whatever the server does |
| Validation.ServerIgnoresSelectorList | src/server/validators.ts:1-8 | the server's verdict does not depend on the selector list |
| Validation.CreateChecks | functions/api/annotations/create.ts:20-33 | a missing field is `invalid_input` "missing fields"; `too_long` exactly when the fields are present and the name is over 32; `missing_selector` exactly when both pass and a selector type is missing; no other code; pass exactly when all pass |
| Validation.CreateChecksMatchLibrary | functions/api/annotations/create.ts:20-33 | the Workers create checks accept exactly the bodies the library validator accepts |
| Validation.CreateNameBeforeSelectors | functions/api/annotations/create.ts:23-33 | Workers reports an over-long name before missing selectors, the library the other way round |
| Validation.ReplyChecks | functions/api/annotations/reply.ts:12-13 | `invalid_input` exactly when the parent id, slug, token or key is falsy; `too_long` exactly when they are truthy and the name is over 32; pass otherwise; every refusal is a 400 without message |
| Validation.ReplyIgnoresContent | functions/api/annotations/reply.ts:12-13 | the Workers reply checks never look at body, selectors or quote |
| Validation.NameCodeAgrees | src/server/validators.ts:5 | on a complete body with both selectors and a parent, the library, Express, Workers create and Workers reply checks all answer `too_long` exactly when the name is over 32 |
| Hex.HexDigit | src/lib/crypto.ts:4-9 | each nibble becomes a lower-case hex digit |
| Hex.ByteHex | src/lib/crypto.ts:6 | each byte becomes exactly two lower-case hex digits |
| Hex.ToHex | src/lib/crypto.ts:4-9 | the hex string is twice as long as the bytes, lower-case, with byte i at positions 2i and 2i+1 |
| Hex.DigitValue | src/lib/crypto.ts:4-9 | reading a hex digit gives a value below 16 |
| Hex.ByteHexValue | src/lib/crypto.ts:6 | the two digits of a byte read back to the byte |
| Hex.FromHexToHex | src/lib/crypto.ts:4-9 | decoding the hex encoding gives back the bytes |
| Hex.ToHexInjective | src/lib/crypto.ts:4-9 | distinct byte strings have distinct hex encodings |
| Hex.HmacMessage | src/lib/crypto.ts:12 | the signed message is the address followed by the date |
| Hex.IpHash | src/lib/crypto.ts:11-17 | the IP hash is the hex of the MAC of the salt and message, all lower-case hex |
| Hex.HashMessageSeparatesDays | src/lib/crypto.ts:11-17 | the same address on two different dates gives two different messages |
| Hex.Padded | src/lib/crypto.ts:19-21 | exactly `width` decimal digits that read back as the number's last `width` digits, so as the number itself whenever it fits (the year, month, day and time fields of `toISOString`) |
| Hex.IsoDateIsCalendarDay | src/lib/crypto.ts:19-21 | the date stamp is `YYYY-MM-DD`, ten characters |
| Hex.SameDaySameStamp | src/lib/crypto.ts:19-21 | two instants on the same UTC day get the same stamp |
| Text.LowerChar | src/lib/runtime.ts:15-19 | an ASCII capital is lowered; every other character is kept |
| Text.Lower | src/lib/runtime.ts:15-19 | lowering keeps the length and lowers each character |
| Text.TrimStart | src/lib/http.ts:32 | removes exactly the leading white space |
| Text.TrimEnd | src/lib/http.ts:32 | removes exactly the trailing white space |
| Text.Trim | src/lib/http.ts:32 | the result neither starts nor ends with white space, and is empty exactly for all-space input |
| Text.NormalKeyStable | src/lib/runtime.ts:15-19 | trimming and lowering a second time changes nothing |
| Text.LowerIdempotent | src/lib/runtime.ts:15-19 | lowering twice is lowering once |
| Text.Split | src/lib/http.ts:32 | `split` gives at least one part and no part holds the separator |
| Text.SplitJoin | src/lib/http.ts:32 | joining the parts of a split with the separator gives back the text |
| Text.NatToString | functions/api/annotations/create.ts:126 | `String(id)` is non-empty decimal digits without a leading zero |
| Text.ParseNat | functions/api/annotations/create.ts:89 | decimal text is read exactly when it is non-empty digits |
| Text.ParseNatToString | functions/api/annotations/create.ts:89 | `Number(String(id))` is the id |
| Text.NatToStringInjective | functions/api/annotations/create.ts:126 | distinct ids are written differently |
| Text.TruthyNumber | src/server/services.ts:28 | `Number(v) \|\| undefined`: a positive number when the text reads as one, nothing for zero or non-numbers |
| Runtime.FallbackNeverDecides | src/lib/runtime.ts:15-19 | the comparisons after the table lookup never decide anything |
| Runtime.NormalizeByTable | src/lib/runtime.ts:15-19 | Cloudflare and Docker are reached only through the alias table; an alias gives its table target |
| Runtime.LowerWordIsNormal | src/lib/runtime.ts:15-19 | a lower-case word is its own lookup key |
| Runtime.NameIsNormal | src/lib/runtime.ts:42-44 | a target's name is trimmed and lower-case |
| Runtime.DescribeRoundTrip | src/lib/runtime.ts:42-44 | the name `describeRuntime` gives normalises back to the same target |
| Runtime.NameInTable | src/lib/runtime.ts:3-13 | each target's name is an alias of itself |
| Runtime.NormalizeIgnoresCaseAndSpace | src/lib/runtime.ts:15-19 | surrounding white space and letter case do not change the target |
| Runtime.EmptyKeyIsLocal | src/lib/runtime.ts:15-19 | a blank value resolves to local |
| Runtime.EnvTarget | src/lib/runtime.ts:21-24 | `RUNTIME_TARGET`, then `RUNTIME` when set and non-empty, else `DEPLOY_TARGET` as it is |
| Runtime.UnsetIsLocal | src/lib/runtime.ts:21-24 | with no variable set the runtime is local |
| Runtime.EnvPrecedence | src/lib/runtime.ts:21-24 | a non-empty `RUNTIME_TARGET` hides the later variables; an empty one is skipped |
| RuntimeTarget.AliasTablesAgree | scripts/runtime-target.mjs:1-11 | the script's alias table is the server's table with each target written as its name |
| RuntimeTarget.ScanFindsFirstFlag | scripts/runtime-target.mjs:21-32 | the argument scan finds nothing without a flag and otherwise takes the value of the first flag |
| RuntimeTarget.Resolve | scripts/runtime-target.mjs:19-40 | the resolved target is never empty |
| RuntimeTarget.ResolveRuntimeTarget | scripts/runtime-target.mjs:19-40 | the loop computes exactly the first-flag-then-environment resolution |
| RuntimeTarget.ChildEnv | scripts/runtime-target.mjs:42-44 | the child environment is the parent's with `RUNTIME_TARGET` set to the target |
| RuntimeTarget.NameIsNormalRaw | scripts/runtime-target.mjs:13-17 | a target name normalises to itself |
| RuntimeTarget.KeyIsNormalRaw | scripts/runtime-target.mjs:13-17 | an unknown normalised key is kept as it is |
| RuntimeTarget.ResolvedIsNormal | scripts/runtime-target.mjs:19-40 | a resolved target is in normal form |
| RuntimeTarget.ChildResolvesSame | scripts/runtime-target.mjs:42-44 | a child started with the child environment and no flags resolves the same target |
| RuntimeTarget.FirstFlagWins | scripts/runtime-target.mjs:21-32 | the first flag with a non-empty value decides over later flags and the environment |
| RuntimeTarget.NoFlagUsesEnvironment | scripts/runtime-target.mjs:34-36 | without a flag the environment decides |
| RuntimeTarget.ServerSeesResolvedTarget | scripts/runtime-target.mjs:42-44 | the server started with the child environment sees the script's target when it is one of the three names and local otherwise |
| RuntimeTarget.ResolveUnknownName | scripts/runtime-target.mjs:13-17 | `--target=azure` resolves to `azure` |
| RuntimeTarget.UnknownNameDisagrees | scripts/runtime-target.mjs:46-52 | for an unknown name the script's predicates say neither Cloudflare nor local-like while the server runs as local |
| Storage.EmptyValid | src/server/routes/annotations.ts:65-74 | the empty database satisfies the table invariants |
| Storage.PostBySlug | functions/api/annotations/create.ts:62-63 | the post with the slug when one exists, and none exactly when no post has it |
| Storage.RowById | functions/api/annotations/reply.ts:34-35 | the row with the id when one exists, and none exactly when no row has it |
| Storage.Count | src/server/services.ts:14 | `COUNT(1)` never exceeds the number of rows |
| Storage.CountAppend | src/server/services.ts:14 | appending a row adds one to a count exactly when it matches |
| Storage.LatestByVisitor | src/server/services.ts:17 | the newest creation time among the visitor's rows, and none exactly when the visitor has none |
| Storage.AddRow | functions/api/annotations/create.ts:107-123 | the insert appends the row with the next id and the current time and changes no other table |
| Storage.AddRowKeepsValid | functions/api/annotations/create.ts:107-123 | an insert whose post exists and whose parent is stored keeps the invariants |
| Storage.AppendKeepsIds | functions/api/annotations/create.ts:107-123 | appending the next id keeps ids increasing and below the counter |
| Storage.AppendKeepsParents | functions/api/annotations/reply.ts:61-67 | appending a reply to a stored parent keeps parents before replies |
| Storage.AppendKeepsPosts | functions/api/annotations/create.ts:107-123 | appending a row of an existing post keeps every row on a stored post |
| Storage.SetState | src/server/routes/mod.ts:17 | the update changes the state of the rows with the id and nothing else |
| Storage.UpdateSetting | functions/api/annotations/create.ts:126 | `UPDATE settings` changes an existing key and does nothing for a missing one |
| Storage.Revised | src/server/routes/posts-api.ts:15 | the edit keeps id and slug, and without a revision bumps it by one |
| Storage.RevisePosts | src/server/routes/posts-api.ts:15 | the edit rewrites the post with the id and nothing else |
| Storage.RevisePostsKeepsValid | src/server/routes/posts-api.ts:15 | editing a post keeps the invariants |
| Storage.AddPostKeepsValid | src/server/routes/posts-api.ts:18 | inserting a post with a fresh slug keeps the invariants |
| Storage.SetStateKeepsValid | src/server/routes/mod.ts:17 | a state update keeps the invariants |
| Storage.SameLinksKeepValid | src/server/routes/mod.ts:17 | rows with the same ids, posts and parents keep the invariants |
| Storage.Store.constructor | src/server/routes/annotations.ts:65-74 | a new store is empty |
| Storage.Store.InsertRow | functions/api/annotations/create.ts:107-125 | the insert returns the next id and leaves the tables as `AddRow` says |
| Storage.Store.InsertSetting | functions/api/annotations/create.ts:93-97 | the insert succeeds exactly when the key is new; a failed insert changes nothing |
| Storage.Store.PutSetting | functions/api/annotations/create.ts:126 | only the setting is updated |
| Storage.Store.PutState | src/server/routes/mod.ts:17 | only the state of the matching rows changes |
| Storage.Store.InsertPost | src/server/routes/posts-api.ts:18-19 | the post is appended with the next post id, which is returned |
| Storage.Store.RevisePost | src/server/routes/posts-api.ts:15 | only the post with the id is rewritten |
| Storage.Store.InsertReport | src/server/routes/annotations.ts:85 | the report is appended and nothing else changes |
| Guards.IpHashFor | src/server/services.ts:12 | no address gives the empty hash; otherwise the HMAC of the address and today's date |
| Guards.RateLimit | src/server/services.ts:11-23 | limited exactly when the address hash has 5 rows in the last 60 seconds or the visitor's newest row is under 15 seconds old |
| Guards.NoAddressOnlyVisitorRule | src/server/services.ts:13-16 | without an address only the visitor rule applies |
| Guards.AcceptedRowEntersWindow | src/server/services.ts:14 | a stored row from the same address inside the window adds one to the count |
| Guards.VisitorGap | src/server/services.ts:17-21 | the visitor rule fires exactly when now is within 15 seconds of the newest row |
| Guards.IdemKey | src/server/services.ts:26 | the key is `idem:` + visitor + `:` + client key |
| Guards.IdemKeyInjective | src/server/services.ts:26 | visitor ids without a colon make distinct pairs give distinct keys |
| Guards.Reserve | src/server/services.ts:25-35 | reserved exactly when the key is new and the insert succeeds, storing `reserved`; a conflict changes nothing and reports a stored positive id |
| Guards.RepeatCount | src/lib/annotations/content.ts:46-48 | the number of recent repeats of the quote never exceeds the number of rows |
| Guards.ReserveIdempotency | src/server/services.ts:25-35 | the method leaves the store and returns the verdict as `Reserve` says |
| Guards.SecondReserveConflicts | src/server/services.ts:27-28 | reserving a key twice conflicts the second time without an id |
| Guards.FinalizedKeyReportsId | src/server/services.ts:27-28 | a finalised key conflicts and reports the stored row id |
| Http.UpTo | src/lib/http.ts:32 | the part of a text before the first separator |
| Http.SplitFirstIsUpTo | src/lib/http.ts:32 | `split(c)[0]` is the text up to the first `c` |
| Http.FindSub | src/server/utils.ts:17 | the first occurrence of a pattern at or after a position, and none exactly when there is none |
| Http.ReplaceFirst | src/server/utils.ts:15-19 | without an occurrence the text is unchanged |
| Http.GetIpWorkers | src/lib/http.ts:29-33 | `cf-connecting-ip` wins when non-empty, else `x-forwarded-for`; the first comma part, trimmed |
| Http.OrEmpty | src/server/utils.ts:15-19 | an absent or empty header reads as empty |
| Http.GetIpExpress | src/server/utils.ts:15-19 | a returned address is non-empty and trimmed |
| Http.MappedAddressStripped | src/server/utils.ts:15-19 | an IPv4-mapped socket address loses its `::ffff:` prefix |
| Http.SocketWhenNotForwarded | src/server/utils.ts:15-19 | without a forwarded header the socket address, unmapped and trimmed, decides |
| Http.PrefixReplaced | src/server/utils.ts:15-19 | replacing the mapped prefix of a mapped address leaves the IPv4 part |
| Http.BlankForwardedPartHidesSocket | src/server/utils.ts:15-19 | a forwarded header whose first part is blank yields no address, even with a socket address |
| Http.SameOriginWorkers | src/lib/http.ts:35-45 | allowed without a configured host; otherwise the host of `origin`, else `referer`, must equal it |
| Http.SameOriginExpress | src/server/utils.ts:4-13 | refused without both headers; allowed only when one of them names the host |
| Http.SameOriginAgree | src/server/utils.ts:4-13 | with a configured host the two back ends decide alike |
| Http.EscapeRegex | src/lib/http.ts:49 | escaping never shortens the cookie name |
| Http.EscapedNameIsLiteral | src/lib/http.ts:49 | the escaped pattern matches exactly the cookie name as a literal |
| Http.CookieMatchAt | src/lib/http.ts:49 | a match ends just after the `=` following the name |
| Http.FindCookie | src/lib/http.ts:49 | the leftmost position where `(?:^\|; )name=` matches, and none exactly when nowhere |
| Http.GetCookie | src/lib/http.ts:47-51 | a value exactly when the pattern matches somewhere in the header |
| Http.SingleCookie | src/lib/http.ts:47-51 | `name=value` reads back the decoded value |
| Http.FirstCookieWins | src/lib/http.ts:47-51 | the first of several cookies of that name wins |
| Http.NameInsideOtherNotFound | src/lib/http.ts:47-51 | a name that only ends another cookie's name is not found |
| Http.MaxAgePart | src/lib/http.ts:61 | a `Max-Age` part exactly when the option is present and non-zero |
| Http.WorkersCookieParts | src/lib/http.ts:53-62 | the Workers cookie is `name=value; Path=/; Secure; HttpOnly; SameSite=Lax` and the optional `Max-Age` |
| Http.ExpressCookieParts | src/server/utils.ts:21-31 | the Express cookie has the same parts with `HttpOnly` before `Secure` |
| Http.ReadParts | src/lib/http.ts:62 | reading a header line gives at least one part |
| Http.JoinPartsIsJoin | src/lib/http.ts:62 | joining with `; ` is joining the spaced parts with `;` |
| Http.SplitOfJoin | src/lib/http.ts:62 | splitting a join of separator-free parts gives the parts back |
| Http.ReadPartsOfJoin | src/lib/http.ts:62 | reading a joined cookie line gives back its parts |
| Http.WorkersCookieReadBack | src/lib/http.ts:53-63 | the Workers `Set-Cookie` line reads back to exactly its parts |
| Http.ExpressCookieReadBack | src/server/utils.ts:21-31 | the Express `Set-Cookie` line reads back to exactly its parts |
| Http.HeaderList.constructor | src/lib/http.ts:4 | a new header list is empty |
| Http.HeaderList.Append | src/lib/http.ts:62 | appending adds one entry under the lower-cased name and keeps the others |
| Http.SetCookieWorkers | src/lib/http.ts:53-63 | one `set-cookie` entry holding the joined parts is appended |
| Http.SetCookieExpress | src/server/utils.ts:21-31 | one `set-cookie` entry holding the joined Express parts is appended |
| Http.CookieHeaderNames | src/server/utils.ts:21-31 | `Set-Cookie` and `set-cookie` are the same header name |
| Http.SetHeader | src/lib/http.ts:5 | after `set` every entry of the name has the value, one exists, and other names are untouched |
| Http.DropNamed | src/lib/http.ts:5 | removing a name leaves no entry of it, and removing twice is removing once |
| Http.Json | src/lib/http.ts:3-7 | the status is the init's (200 by default), the content type is JSON, other headers are kept, and the data is the payload |
| Http.Error | src/lib/http.ts:9-11 | an error response has the status, the code and message as data, and only the JSON content type |
| Listing.JsNumber | functions/api/annotations/list.ts:8 | `Number(s)`: blank text is 0 and a negative result comes from a leading minus |
| Listing.SignedDecimal | functions/api/annotations/list.ts:8 | an optional minus and decimal digits; empty is 0 |
| Listing.JsNumberOfNumeral | functions/api/annotations/list.ts:8 | a decimal numeral reads as its value |
| Listing.JsNumberOfNegative | functions/api/annotations/list.ts:8 | a minus and a numeral read as the negated value |
| Listing.LimitAsWritten | functions/api/annotations/list.ts:8 | `Math.min(Number(limit) \|\| 50, 200)`: never 0, at most 200, and negative only when the parameter reads as that negative number |
| Listing.LimitRuntimesAgree | src/server/routes/annotations.ts:17 | the Express limit is computed the same way |
| Listing.ServerLimitAsWritten | src/server/routes/annotations.ts:17 | the Express limit is never 0, at most 200, and negative only when a non-empty parameter reads as that negative number |
| Listing.AbsentLimitIsDefault | functions/api/annotations/list.ts:8 | without a parameter the limit is 50 |
| Listing.SqlLimit | functions/api/annotations/list.ts:14-21 | SQLite `LIMIT n` keeps the first n rows, and a negative n keeps all |
| Listing.MinusOneLimit | functions/api/annotations/list.ts:8 | `limit=-1` gives a limit of -1 |
| Listing.NegativeLimitUncapped | functions/api/annotations/list.ts:8-21 | with `limit=-1` more than 200 rows can be returned |
| Listing.ListLimit | functions/api/annotations/list.ts:8 | the corrected limit is between 1 and 200, equals the written one when that is positive and is 50 when it is negative |
| Listing.Filter | functions/api/annotations/list.ts:14-21 | `WHERE`: exactly the rows that match, as a sub-multiset |
| Listing.InsertByTime | functions/api/annotations/list.ts:14-21 | inserting into a time-sorted list keeps it sorted and adds exactly that row |
| Listing.SortByTime | functions/api/annotations/list.ts:14-21 | `ORDER BY created_at ASC`: sorted and a permutation |
| Listing.PageSound | functions/api/annotations/list.ts:14-21 | a page is sorted and holds only matching rows |
| Listing.PageSize | functions/api/annotations/list.ts:14-21 | a page has min(n, matches) rows, and all matches when they fit |
| Listing.PageEarliest | functions/api/annotations/list.ts:14-21 | every matching row left out is no older than any row on the page |
| Listing.ListWith | functions/api/annotations/list.ts:4-28 | 400 without a slug, 500 on a database failure, otherwise 200 with the page of published rows of the post after the cursor |
| Listing.NegativeLimitListsAll | functions/api/annotations/list.ts:8-21 | as written, `limit=-1` lists every published row of the post |
| Listing.ListReturnsPublished | functions/api/annotations/list.ts:14-24 | the corrected listing returns at most the limit of published rows of the post after the cursor, sorted, all of them when they fit, and the oldest first |
| Listing.ListHidesUnpublished | functions/api/annotations/list.ts:14-21 | pending and rejected rows are never listed |
| Listing.PendingQueue | functions/api/mod/list.ts:7-13 | 500 on failure, otherwise the page of pending rows limited to 200 |
| Listing.QueueIsOldestPending | src/server/routes/mod.ts:9-12 | the queue holds at most 200 pending rows, sorted, all of them when they fit, and the oldest first |
| Admin.TargetState | src/server/routes/mod.ts:16 | only `published` and `rejected` are accepted targets |
| Admin.ModUpdate | src/server/routes/mod.ts:14-19 | 200 exactly when the id is truthy, the state accepted and the store works; a refusal changes nothing and invalid input is a 400 |
| Admin.HandleModUpdate | src/server/routes/mod.ts:14-19 | the handler leaves the store and responds as `ModUpdate` says |
| Admin.HandleModUpdateWorkers | functions/api/mod/update.ts:7-14 | the Workers handler leaves the store and responds as its function says |
| Admin.ModUpdateRuntimesAgree | functions/api/mod/update.ts:7-14 | the Workers update equals the Express one; a JSON null body is an empty change and an unparsable body a 400 |
| Admin.ModUpdateEffect | src/server/routes/mod.ts:17 | only the state of the row with the id changes, to the target state |
| Admin.ModUpdateNeverHolds | src/server/routes/mod.ts:16-17 | moderation never turns a row pending |
| Admin.ModUpdateIdempotent | src/server/routes/mod.ts:17 | repeating an update changes nothing more and still answers ok |
| Admin.UnknownIdAcknowledged | src/server/routes/mod.ts:17 | an update of an id no row has answers ok and changes nothing |
| Admin.ModUpdateKeepsValid | src/server/routes/mod.ts:17 | an update keeps the table invariants |
| Admin.NewPost | src/server/routes/posts-api.ts:18 | a new post carries the fields, revision 1 by default |
| Admin.SavePost | src/server/routes/posts-api.ts:9-22 | 500 on failure with nothing changed, otherwise 200 with a post reply; annotations, settings and reports are untouched |
| Admin.WritePost | src/server/routes/posts-api.ts:13-19 | the method leaves the store and responds as `SavePost` says |
| Admin.HandleUpsertWorkers | functions/api/posts/upsert.ts:16-38 | the Workers handler leaves the store and responds as its function says |
| Admin.HandleUpsertServer | src/server/routes/posts-api.ts:9-22 | the Express handler leaves the store and responds as its function says |
| Admin.UpsertRuntimesAgree | src/server/routes/posts-api.ts:9-22 | on a parsed object the Workers and Express upserts leave the same store; an incomplete post is a 400 that changes nothing on both, and a complete one is saved alike |
| Admin.UniqueSlugFound | src/server/routes/posts-api.ts:13 | with unique slugs the lookup finds the post holding the slug |
| Admin.UpsertThenLookup | src/server/routes/posts-api.ts:13-19 | after an upsert the slug finds a post with the new content, the reply's id and `created` exactly when it was new; the revision follows the rule |
| Admin.EditThenLookup | src/server/routes/posts-api.ts:14-16 | editing an existing slug keeps its id and stores the revised post |
| Admin.InsertThenLookup | src/server/routes/posts-api.ts:17-19 | a new slug gets the next post id and is found afterwards |
| Admin.SavePostKeepsValid | src/server/routes/posts-api.ts:13-19 | an upsert keeps the table invariants |
| Admin.SavePostKeepsOtherPosts | src/server/routes/posts-api.ts:13-19 | an upsert does not change what other slugs find |
| Admin.EditKeepsOthers | src/server/routes/posts-api.ts:15 | editing one post leaves every post of another slug as it was |
| Admin.RepublishUpdates | src/server/routes/posts-api.ts:13-19 | upserting a slug twice updates the same post the second time and bumps the revision |
| Admin.HandleReport | src/server/routes/annotations.ts:80-88 | the handler leaves the store and responds as its function says |
| Admin.ReportAppendsOne | src/server/routes/annotations.ts:80-88 | 202 exactly when the origin is allowed, the id truthy and the store works, appending exactly that report; otherwise nothing changes |
| Pipeline.VisitOf | functions/api/annotations/create.ts:47-51 | a truthy visitor cookie is reused; otherwise a fresh id is issued with a cookie |
| Pipeline.DraftRow | functions/api/annotations/create.ts:107-123 | the row carries the quote and selectors, and no IP hash exactly when the hash is empty |
| Pipeline.CommitRow | functions/api/annotations/create.ts:107-137 | the method leaves the store and responds as `Commit` says |
| Pipeline.Finished | functions/api/annotations/create.ts:99-103 | the hold makes the row pending exactly when the draft is pending or the quote was repeated in the last 30 seconds; nothing else in the draft changes |
| Pipeline.AdmitRow | src/server/routes/annotations.ts:46-74 | the method leaves the store and responds as `Admit` says |
| Pipeline.AdmitReplyRow | functions/api/annotations/reply.ts:34-77 | the method leaves the store and responds as `AdmitReply` says |
| Pipeline.WorkersPlan | functions/api/annotations/create.ts:47-105 | the draft is the 8000-character prefix through `sanitizeHtml` as written, with the threshold state and the signals; visitor, key, slug and IP hash come from the request |
| Pipeline.CreateGate | functions/api/annotations/create.ts:9-44 | passing the gate means the body passed the create checks, a secret is configured and Turnstile passed |
| Pipeline.HandleCreateWorkers | functions/api/annotations/create.ts:1-138 | the Workers create handler leaves the store and responds as `CreateWorkers` says |
| Pipeline.ReplyGate | functions/api/annotations/reply.ts:9-22 | passing the gate means the reply checks passed, a secret is configured and Turnstile passed |
| Pipeline.HandleReplyWorkers | functions/api/annotations/reply.ts:1-78 | the Workers reply handler leaves the store and responds as `ReplyWorkers` says |
| Pipeline.ServerGate | src/server/routes/annotations.ts:29-37 | passing the gate means the server validator accepted the body and Turnstile passed |
| Pipeline.ServerPlan | src/server/routes/annotations.ts:39-63 | the draft is the 8000-character prefix through `sanitizeHtml` as written, with the 2000/3 state; visitor, key, slug and IP hash come from the request |
| Pipeline.HandleCreateOrReplyServer | src/server/routes/annotations.ts:28-75 | the Express handler leaves the store and responds as `CreateOrReplyServer` says |
| PipelineProofs.CommitAccepted | functions/api/annotations/create.ts:107-134 | a commit appends the stored row, finalises the key with its id and answers 200 with id and state |
| PipelineProofs.CommitAppendOnly | functions/api/annotations/create.ts:107-126 | a commit never changes or removes existing rows |
| PipelineProofs.AdmitAccepted | src/server/routes/annotations.ts:46-74 | an accepted create found the post, passed the rate limit with a new key and a matching parent, appended one row and finalised the key |
| PipelineProofs.AdmitRefusals | src/server/routes/annotations.ts:46-60 | 404, 429 and 409 change nothing; a 400 parent mismatch leaves the key reserved |
| PipelineProofs.AdmitKeepsValid | src/server/routes/annotations.ts:46-74 | every outcome keeps the invariants and never changes stored rows |
| PipelineProofs.AdmitStores | src/server/routes/annotations.ts:46-74 | the store is unchanged, only reserved, or reserved and then committed with the found post and parent |
| PipelineProofs.AdmitReplayConflicts | src/server/services.ts:25-28 | replaying an accepted request with the same visitor and key is a 409 that names the first row |
| PipelineProofs.LatestIsNewest | src/server/services.ts:17 | the row just stored is the visitor's newest |
| PipelineProofs.AdmitQuickReplayLimited | src/server/services.ts:17-21 | a second request from the same visitor within 15 seconds is a 429 |
| PipelineProofs.AdmitFinalizeFailure | functions/api/annotations/create.ts:125-137 | a failing finalisation answers 500 after the row was stored, and the key stays reserved for good |
| PipelineProofs.AdmitReplyAccepted | functions/api/annotations/reply.ts:34-74 | an accepted reply found the parent and its post, appended one row under that parent and finalised the key |
| PipelineProofs.AdmitReplyParentFirst | functions/api/annotations/reply.ts:34-35 | an unknown parent is a 404 before anything else |
| PipelineProofs.AdmitReplyIncompleteBurnsKey | functions/api/annotations/reply.ts:61-77 | a reply without quote or selectors fails the insert after the key was reserved |
| PipelineProofs.AdmitReplyKeepsValid | functions/api/annotations/reply.ts:34-77 | every reply outcome keeps the invariants and never changes stored rows |
| PipelineProofs.AdmitReplyStores | functions/api/annotations/reply.ts:34-77 | the store is unchanged, only reserved, or reserved and then committed under the parent |
| PipelineProofs.ServerIsAdmit | src/server/routes/annotations.ts:28-75 | after the gate the Express handler is the shared admission with the server's plan |
| PipelineProofs.ReplyIsAdmit | functions/api/annotations/reply.ts:1-78 | after the gate the Workers reply is the reply admission |
| PipelineProofs.CreateGateNeverAccepts | functions/api/annotations/create.ts:9-44 | a request stopped at the gate never gets a 200 |
| PipelineProofs.ReplyGateNeverAccepts | functions/api/annotations/reply.ts:9-22 | a reply stopped at the gate never gets a 200 |
| PipelineProofs.ServerGateNeverAccepts | src/server/routes/annotations.ts:29-37 | an Express request stopped at the gate never gets a 200 |
| PipelineProofs.CreateIsAdmit | functions/api/annotations/create.ts:1-138 | after the gate the Workers create is the shared admission with the repeat hold |
| PipelineProofs.CreateWorkersAccepted | functions/api/annotations/create.ts:1-134 | an accepted Workers create appends one row with the next id, the post's id, the sanitised body, the quote and selectors, pending exactly by the thresholds or a repeat, and finalises the key |
| PipelineProofs.CreateWorkersReplayConflicts | functions/api/annotations/create.ts:86-91 | replaying an accepted create is a 409 naming the first row |
| PipelineProofs.CreateWorkersQuickReplayLimited | functions/api/annotations/create.ts:77-83 | a second create from the visitor within 15 seconds is a 429 |
| PipelineProofs.ReplyWorkersAccepted | functions/api/annotations/reply.ts:1-74 | an accepted Workers reply appends one row under the parent and on its post, with the sanitised body and threshold state |
| PipelineProofs.ServerAccepted | src/server/routes/annotations.ts:28-74 | an accepted Express request appends one row on the post, under its parent for replies, sanitised, pending by 2000/3 or a repeat |
| PipelineProofs.CreateWorkersKeepsValid | functions/api/annotations/create.ts:1-138 | the Workers create keeps the invariants and never changes stored rows |
| PipelineProofs.ReplyWorkersKeepsValid | functions/api/annotations/reply.ts:1-78 | the Workers reply keeps the invariants and never changes stored rows |
| PipelineProofs.ServerKeepsValid | src/server/routes/annotations.ts:28-75 | the Express handler keeps the invariants and never changes stored rows |
| PipelineProofs.ServerParentMismatchBurnsKey | src/server/routes/annotations.ts:55-60 | a parent mismatch leaves the key reserved, so a corrected retry with that key conflicts |
| PipelineProofs.GateNeverMismatches | src/server/routes/annotations.ts:29-37 | the gate never answers "parent mismatch" |
| PipelineProofs.CreateRuntimesAgree | src/server/routes/annotations.ts:28-75 | with the same salt, address and visitor cookie, the Workers create and the Express create give the same store and response |
| PipelineProofs.PlansAgree | src/server/services.ts:4-9 | the two back ends plan the same row |
| Reader.NonEmptyParts | leptos-app/src/app.rs:39-48 | only non-empty path segments remain |
| Reader.PathSlug | leptos-app/src/app.rs:39-48 | a slug exactly when the path is `/posts/<segment>…`; it is non-empty and has no slash |
| Reader.SourceGivesSlug | leptos-app/src/app.rs:39-48 | the source written into an envelope reads back as its slug |
| Reader.FirstMatchFrom | leptos-app/src/app.rs:56-71 | the first position at or after i where the text occurs |
| Reader.FindBytes | leptos-app/src/app.rs:68 | the byte search finds a match exactly when the character search does |
| Reader.CurrentSelectionAsWritten | leptos-app/src/app.rs:56-71 | as written: a selection exactly when the corrected one exists, with the same text, but starting at the UTF-8 byte length of the text before the occurrence |
| Reader.CurrentSelection | leptos-app/src/app.rs:56-71 | the corrected selection: none when nothing is selected or found, otherwise character offsets of the first occurrence |
| Reader.AsciiPositionsAgree | leptos-app/src/app.rs:68-69 | on ASCII text the written and corrected selections agree |
| Reader.ByteOffsetMisplaces | leptos-app/src/app.rs:68-69 | selecting `x` in `éx` gives start 2 as written, character 1 corrected, beyond the two-character text |
| Reader.SkipTake | leptos-app/src/app.rs:155-181 | `chars().skip(k).take(n)` is the slice, clipped to the text |
| Reader.BuildEnvelope | leptos-app/src/app.rs:155-181 | an `Annotation` on `/posts/<slug>` with a quote and a code-point position; no prefix exactly at the start and no suffix exactly at the end |
| Reader.EnvelopeAroundSelection | leptos-app/src/app.rs:155-181 | prefix, exact and suffix are contiguous in the text with up to 20 characters of context |
| Reader.ByteOffsetEnvelope | leptos-app/src/app.rs:155-181 | with the written byte offset the prefix of `x` in `éx` is the whole text and there is no suffix |
| Reader.EnvelopePassesSelectorCheck | src/lib/annotations/validation.ts:18-24 | an envelope from the reader passes the server's selector check |
| Reader.Preview | leptos-app/src/app.rs:292 | up to 80 characters as they are, longer quotes cut to 80 and an ellipsis |
| Reader.LexLeTotal | leptos-app/src/app.rs:321 | string order is total |
| Reader.LexLeTrans | leptos-app/src/app.rs:321 | string order is transitive |
| Reader.KeyLeTotal | leptos-app/src/app.rs:321 | the `Option` key order is total |
| Reader.KeyLeTrans | leptos-app/src/app.rs:321 | the `Option` key order is transitive |
| Reader.InsertByKey | leptos-app/src/app.rs:321 | inserting keeps the order and adds exactly that annotation |
| Reader.SortByKey | leptos-app/src/app.rs:321 | `sort_by_key(created_at)`: sorted and a permutation |
| Reader.Select | leptos-app/src/app.rs:319-320 | `filter` keeps exactly the matching annotations |
| Reader.InThread | leptos-app/src/app.rs:322-326 | a thread shows each root and exactly the replies whose parent it is |
| Reader.GroupedShows | leptos-app/src/app.rs:318-327 | the list shows exactly the roots and the replies to a root; replies to replies and orphans are hidden |
| Reader.RootsInOrder | leptos-app/src/app.rs:319-321 | the roots are every parentless annotation, in creation order |
| Selection.Concat | public/annotate.js:76-78 | the text of the nodes is as long as their lengths together |
| Selection.ConcatPrefix | public/annotate.js:76-78 | the first m nodes spell the start of the whole text |
| Selection.OffsetWithin | public/annotate.js:80-87 | the loop returns the offset of the boundary in the container's text |
| Selection.OffsetLocatesUnit | public/annotate.js:80-87 | the offset of a position inside a node points at that node's unit in the whole text |
| Selection.Slice | public/annotate.js:100-102 | `slice(a, b)` is the substring for valid bounds |
| Selection.SerializeSelection | public/annotate.js:89-114 | nothing exactly when there is no range, a boundary outside the article or a collapsed range; otherwise ordered offsets and quote = exact |
| Selection.SerializeOffsets | public/annotate.js:97-113 | ordered offsets, quote equal to exact, source the page path |
| Selection.SerializedIsContiguous | public/annotate.js:97-102 | prefix, exact and suffix are contiguous in the text with up to 30 units of context |
| Selection.SameNodeSelection | public/annotate.js:95-98 | a selection inside one node gives its offsets ordered, shifted by the preceding nodes |
| Selection.TrimStartUnits | public/annotate.js:174 | trimming removes exactly the leading white space |
| Selection.TrimEndUnits | public/annotate.js:174 | trimming removes exactly the trailing white space |
| Selection.OpensIffVisibleQuote | public/annotate.js:173-174 | the composer opens exactly when the quote has a non-space unit |
| Selection.Utf16 | public/annotate.js:76-78 | the UTF-16 encoding has one unit per BMP character and two per other |
| Selection.UnitsCountCodePoints | public/annotate.js:108 | units and code points agree exactly on BMP-only text |
| Toc.CollapseShape | public/toc.js:8 | collapsing keeps only lower-case letters, digits and single dashes |
| Toc.CollapseLetters | public/toc.js:8 | collapsing keeps every letter and digit, in order |
| Toc.DropLeadingDashes | public/toc.js:8 | removes exactly the leading dashes |
| Toc.DropTrailingDashes | public/toc.js:8 | removes exactly the trailing dashes |
| Toc.SlugBase | public/toc.js:6-14 | the base slug is never empty |
| Toc.SlugBaseShape | public/toc.js:6-14 | the base slug is lower-case letters and digits joined by single inner dashes, or `section` |
| Toc.SlugBaseKeepsLetters | public/toc.js:6-14 | the slug keeps exactly the lowered letters and digits of the heading, or is `section` when there are none |
| Toc.SlugBaseFixedPoint | public/toc.js:6-14 | a well-formed slug is its own slug |
| Toc.SlugBaseIdempotent | public/toc.js:6-14 | slugging a slug changes nothing |
| Toc.CandidateInjective | public/toc.js:10-11 | the numbered candidates are all different |
| Toc.CandidatesCount | public/toc.js:10-11 | there are n distinct candidates below n |
| Toc.FirstFree | public/toc.js:10-11 | the first free candidate number: free, and every earlier one taken |
| Toc.FirstFreeUnique | public/toc.js:10-11 | the free number found is the one that stops the loop |
| Toc.NumberedIsFirstFree | public/toc.js:9-13 | the id is unused, starts with the base, is the base when that is free and otherwise `base-k` for the first free k |
| Toc.UsedIds.constructor | public/toc.js:17 | the used set starts as the page's ids |
| Toc.UsedIds.Slugify | public/toc.js:6-14 | returns the first free numbered form of the base slug and records it |
| Toc.UsedIds.Claim | public/toc.js:10-13 | returns the first free numbered form of the base and records it |
| Toc.NameHeading | public/toc.js:19-21 | a heading with an id keeps it; one without gets the first free numbered form of its text's slug, which is non-empty, fresh and recorded; no other heading changes |
| Toc.EnsureHeadingIds | public/toc.js:16-23 | existing ids are kept; every heading without one gets the first free numbered form of its text's slug given the page's ids and the ids of the headings before it, which is non-empty, unused by the page and different from every other heading's id |
| Sanitizer.SkipSpaces | src/lib/sanitizer.ts:25 | `\s*`: the run of white space from i |
| Sanitizer.FindChar | src/lib/sanitizer.ts:8-9 | the first occurrence of a character from i |
| Sanitizer.FindLastChar | src/lib/sanitizer.ts:39 | the last occurrence of a character before hi, where the greedy `[^\1]*` backtracks to the closing quote |
| Sanitizer.UnquotedEnd | src/lib/sanitizer.ts:9 | `[^\s>]+` ends at the first space or `>` |
| Sanitizer.LettersEnd | src/lib/sanitizer.ts:36 | `[a-z]+` (case-insensitive) ends at the first non-letter |
| Sanitizer.NonSohEnd | src/lib/sanitizer.ts:39 | `[^\1]*` without the `u` flag excludes only U+0001: the run stops at the end or at the first U+0001 |
| Sanitizer.Href | src/lib/sanitizer.ts:8-9 | the extracted href is made of characters of the opening tag |
| Sanitizer.EscapeQuotes | src/lib/sanitizer.ts:12 | no double quote remains, text without one is unchanged |
| Sanitizer.FirstAnchorCloser | src/lib/sanitizer.ts:22 | the lazy `[\s\S]*?` stops at the first position at or after i where `<\s*/\s*a\s*>` matches, giving its extent; none exactly when no position matches |
| Sanitizer.FormatNameAt | src/lib/sanitizer.ts:25-26 | the alternation `strong\|em\|code` picks exactly the name spelt at the position (the three begin with different letters), and none when none is |
| Sanitizer.MatchAt | src/lib/sanitizer.ts:16-42 | a match of any pass consumes at least one character and no more than the text |
| Sanitizer.ScriptSchemeMatch | src/lib/sanitizer.ts:39 | the corrected last-pass pattern, quote optional: a match is non-empty, within the text, and replaced by nothing |
| SanitizerProofs.NoCarriageReturn | src/lib/sanitizer.ts:17-19 | empty input gives empty output, and no output contains a carriage return |
| SanitizerProofs.NewlinesRemoveCR | src/lib/sanitizer.ts:19 | `\r\n?` → `\n` leaves no carriage return |
| SanitizerProofs.PassKeepsNoCR | src/lib/sanitizer.ts:22-39 | no later pass reintroduces a carriage return |
| SanitizerProofs.AnchorPairNoCR | src/lib/sanitizer.ts:7-14 | a rewritten anchor pair adds no carriage return |
| SanitizerProofs.PieceStep | src/lib/sanitizer.ts:16-42 | each pass rewrites a well-formed piece on its own, then continues after it |
| SanitizerProofs.PassOnPieces | src/lib/sanitizer.ts:16-42 | a pass over rendered pieces is the rendering of the pieces that survive it |
| SanitizerProofs.SurvivorsVisible | src/lib/sanitizer.ts:32-33 | the stray-closer and other-tag passes together remove exactly the foreign tags |
| SanitizerProofs.LaterPasses | src/lib/sanitizer.ts:25-39 | the passes after the anchor pass turn well-formed pieces into their visible rendering |
| SanitizerProofs.SanitizeWellFormed | src/lib/sanitizer.ts:16-42 | sanitising well-formed pieces keeps text and allowed tags and drops every other tag |
| SanitizerProofs.PlainTextKept | src/lib/sanitizer.ts:16-42 | text without `<`, `=` and carriage returns is left as it is |
| SanitizerProofs.CharsRenderVisible | src/lib/sanitizer.ts:16-42 | plain characters are their own visible rendering |
| SanitizerProofs.CloserAfterInner | src/lib/sanitizer.ts:22 | the anchor pattern pairs the opening tag with the first `</a>` after it |
| SanitizerProofs.AnchorPairRewrite | src/lib/sanitizer.ts:22 | an anchor with inner text is replaced by `sanitizeAnchorPair` of its opening and inner text |
| SanitizerProofs.HrefQuoted | src/lib/sanitizer.ts:8-9 | a quoted href is read between its quotes |
| SanitizerProofs.HrefUnquoted | src/lib/sanitizer.ts:8-9 | an unquoted href runs to the first space or `>` |
| SanitizerProofs.CanonicalAnchorText | src/lib/sanitizer.ts:13 | the rebuilt anchor is `<a href="…" rel="noopener nofollow ugc">…</a>` |
| SanitizerProofs.EscapeQuotesSplit | src/lib/sanitizer.ts:12 | escaping works character by character: `"` becomes `&quot;` in place and every other character is kept |
| SanitizerProofs.EscapeQuotesChars | src/lib/sanitizer.ts:12 | nothing but the text's own characters and those of `&quot;` appear in the escaped text |
| SanitizerProofs.EscapeQuotesLength | src/lib/sanitizer.ts:12 | each double quote lengthens the text by five characters, the difference between `"` and `&quot;` |
| SanitizerProofs.HrefAbsent | src/lib/sanitizer.ts:8-11 | an opening tag without `href` gives the empty href, which is unsafe |
| SanitizerProofs.SafeAnchorRebuilt | src/lib/sanitizer.ts:10-13 | for any attributes without `>` and any inner text up to the first `</a>`, an anchor whose href is http(s) or mailto is rebuilt in canonical form and scanning resumes after it |
| SanitizerProofs.UnsafeAnchorUnwrapped | src/lib/sanitizer.ts:10-11 | for any attributes without `>` and any inner text up to the first `</a>`, an anchor with any other href (or none) is replaced by its inner text |
| SanitizerProofs.UnsafeAnchorSanitized | src/lib/sanitizer.ts:11-42 | an unsafe anchor around well-formed content sanitises to that content's visible rendering |
| SanitizerProofs.FormatOpenerNormalized | src/lib/sanitizer.ts:25 | an opening `strong`, `em` or `code` tag with any spacing, case and attributes becomes the bare tag |
| SanitizerProofs.FormatCloserNormalized | src/lib/sanitizer.ts:26 | a closing `strong`, `em` or `code` tag with any spacing and case becomes the bare closer |
| SanitizerProofs.LineBreakNormalized | src/lib/sanitizer.ts:29 | a `br` tag with any spacing, case and attributes becomes `<br>` |
| SanitizerProofs.EventHandlerRemoved | src/lib/sanitizer.ts:36 | a space, `on` and letters, `=` with any spacing, and a double-quoted, single-quoted or unquoted value are removed together, in any case |
| SanitizerProofs.ScriptHrefRemovedGreedy | src/lib/sanitizer.ts:39 | a `javascript:` href is removed up to the last matching quote of the text |
| SanitizerProofs.AnchorTagsKept | src/lib/sanitizer.ts:32-33 | anchor tags survive the stray-closer and other-tag passes |
| SanitizerProofs.ForeignOpenStart | src/lib/sanitizer.ts:33 | an unknown opening tag is removed by the other-tag pass only |
| SanitizerProofs.ForeignCloseStart | src/lib/sanitizer.ts:32-33 | an unknown closing tag is removed by the stray-closer pass unless it begins like an allowed name, and otherwise by the other-tag pass |
| SanitizerProofs.ForeignCloseStrayClosers | src/lib/sanitizer.ts:32 | the stray-closer pass spares closers such as `</abbr>` whose name starts with an allowed name |
| SanitizerProofs.OpenShapedStart | src/lib/sanitizer.ts:25 | only the opener pass touches an allowed opening tag |
| SanitizerProofs.CloseShapedStart | src/lib/sanitizer.ts:26 | only the closer pass touches an allowed closing tag |
| SanitizerProofs.PieceStart | src/lib/sanitizer.ts:16-42 | each pass matches a piece exactly when the pass concerns it, consuming the whole piece |
| SanitizerProofs.PieceNoCloser | src/lib/sanitizer.ts:22 | no `</a>` starts at a well-formed piece |
| SanitizerProofs.RenderNoCloser | src/lib/sanitizer.ts:22 | no `</a>` starts anywhere inside rendered pieces |
| SanitizerCorrected.ScanShrinks | src/lib/sanitizer.ts:39 | one scan of the corrected pass never lengthens the text; a scan that removes nothing found no occurrence, and a text without one is unchanged |
| SanitizerCorrected.StripScriptSchemes | src/lib/sanitizer.ts:39 | repeated until nothing matches: no position of the result starts a `javascript:` href, and a text without one is kept |
| SanitizerCorrected.SanitizeHtml | src/lib/sanitizer.ts:16-42 | the corrected sanitiser: empty input gives empty output, and no position of the output starts a `javascript:` href |
| SanitizerCorrected.SchemeMatched | src/lib/sanitizer.ts:39 | every spelling of `href`, `=`, an optional quote and `javascript:`, in any case and with any white space, is matched up to the end of `javascript:` |
| SanitizerCorrected.NoScriptSchemeLeft | src/lib/sanitizer.ts:38-39 | no spelling of a `javascript:` href, quoted or not, starts anywhere in the corrected output |
| SanitizerCorrected.UnclosedAnchorKept | src/lib/sanitizer.ts:22-39 | as written, `<a href=javascript:x>y` comes out unchanged although it holds a `javascript:` href |
| SanitizerCorrected.UnclosedAnchorCleaned | src/lib/sanitizer.ts:38-39 | corrected, the same input comes out as `<a x>y` |
| SanitizerCorrected.NoEqualsNoScheme | src/lib/sanitizer.ts:39 | text without `=` holds no `javascript:` href |
| SanitizerCorrected.WellFormedUnchanged | src/lib/sanitizer.ts:16-42 | on well-formed pieces the corrected sanitiser gives the same visible rendering as the source's |
| SanitizerCorrected.PlainTextKept | src/lib/sanitizer.ts:16-42 | text without `<`, `=` and carriage returns passes the corrected sanitiser unchanged |

## Left out

- I/O of every kind is not modelled: HTTP request parsing, the Express and Pages
  routers, D1 and SQLite drivers. The database is the `Store` class over `seq` tables.
  The handlers are methods over it, and a failing statement is a boolean in `World`.
- The Turnstile network call is a verdict in `World`. The HMAC (Web Crypto and Node
  `crypto`) is a `mac` parameter. `crypto.randomUUID`, `Date.now` and `Date.parse`
  are `World` fields. `new URL(…).host` is a `hostOf` parameter.
  `decodeURIComponent`/`encodeURIComponent` are `decode`/`encode` parameters.
- The Unicode letter and number classes of `\p{L}\p{N}` in `public/toc.js` are an
  `isLetterOrNumber` parameter.
- `toLowerCase` lowers ASCII capitals only in the model; `trim` and `\s` use
  JavaScript's full white-space set.
- Creation time is an integer number of seconds. SQLite's `datetime('now', '-60
  seconds')` text comparison is modelled as integer comparison.
- JSON serialisation of selectors and signals is not modelled. These are stored as
  values.
- Request bodies are already parsed values. Unparsable JSON is a separate case, with a
  JSON `null` modelled where the handler destructures it.
- The SSR cache purge after an insert (`caches.default.delete`) is a side effect
  outside the store and is not modelled.
- `functions/api/annotations/report.ts` only validates and answers 202, and writes
  nothing. It is not modelled beyond the Express report handler, which stores.
- The posts pages, the home page, the SSR renderer, `renderToc`, the scroll spy and
  the popup positioning in the client scripts are not part of this model.
- `Selection.Utf16` treats each code point above the BMP as two units and does not
  model lone surrogates.
- `Reader.CurrentSelection` and `Reader.BuildEnvelope` take the selection string and
  the article text as inputs. The DOM `Selection` API is not modelled.
- Migrations (the SQL schema) are not part of this model. `Storage.Valid` states the
  invariants the handlers rely on: AUTOINCREMENT ids, unique slugs, and foreign keys
  from annotations to posts and to parent annotations.
- `Http.GetIpExpress` does not state which of the forwarded header and the socket
  address wins in its ensures. `Http.SocketWhenNotForwarded`,
  `Http.MappedAddressStripped` and `Http.BlankForwardedPartHidesSocket` state the
  cases separately.
- `Sanitizer.Href` states only that the href is drawn from the opening tag.
  `SanitizerProofs.HrefQuoted` and `SanitizerProofs.HrefUnquoted` state what it
  extracts for each form.
- `Sanitizer.MatchAt` states only that a match has a length within the text. What
  each pass matches is stated by `SanitizerProofs.PieceStart` on well-formed pieces and
  by the tag-shape lemmas `SanitizerProofs.FormatOpenerNormalized`,
  `SanitizerProofs.FormatCloserNormalized`, `SanitizerProofs.LineBreakNormalized`,
  `SanitizerProofs.EventHandlerRemoved`, `SanitizerProofs.ScriptHrefRemovedGreedy`,
  `SanitizerProofs.SafeAnchorRebuilt` and `SanitizerProofs.UnsafeAnchorUnwrapped`.
- `Toc.SlugBase` states only that the slug is non-empty. Its shape, letters and
  idempotence are separate lemmas.
- `RuntimeTarget.Resolve` states only that the target is non-empty. Its normal form,
  flag precedence and environment fallback are separate lemmas.
- The two back ends compute the client address differently, and the model keeps both:
  Workers prefers `cf-connecting-ip` (`Http.GetIpWorkers`), while Express reads
  `x-forwarded-for` and then the socket address, stripping the `::ffff:` prefix
  (`Http.GetIpExpress`).
- Validation exists three times: the Workers handlers, the Express validator and the
  shared library each check different fields in a different order. The model keeps
  each of them (`Validation.ServerAcceptsMore`,
  `Validation.CreateNameBeforeSelectors`).

- Lengths count code points: a `string` here is a sequence of Unicode scalar values,
  while JavaScript's `length` and `slice` count UTF-16 code units. On text outside the
  Basic Multilingual Plane the server-side limits therefore differ from the source: the
  32-unit display-name limit (`Validation.NameTooLong`), the 2000-unit moderation
  threshold (`Content.PrepareContent`, `Content.ModerationFlags`) and `slice(0, 8000)`
  (`Content.Prefix`). A display name of 17 emoji is 34 units and `too_long` in the
  source, but 17 characters and accepted here. Only the client serialiser
  (`Selection`) works on UTF-16 units.
- `Listing.JsNumber` reads only decimal integers with an optional sign and surrounding
  white space. Other texts `Number` accepts (`1e2`, `0x10`, `0b1`, `0o7`, `1.5`, `.5`,
  `Infinity`) are NaN here, so the model falls back to 50 where the source would use
  100, 16, 1, 7, 1.5, 0.5 or 200.
- `Listing.LimitAsWritten` inherits that: its limit is an integer, and a fractional
  limit of the source is not modelled.
- `Listing.ServerLimitAsWritten` inherits the same restriction.
- `Http.GetCookie` does not model that `decodeURIComponent` throws `URIError` on a
  malformed escape such as `visitor_id=%`; `decode` is a total parameter. In the
  source the call is outside any `try`, so such a request fails.
- `Pipeline.VisitOf` inherits that: a cookie value that would make the request fail in
  the source is decoded by the parameter and reused.
- `SanitizerCorrected.SanitizeHtml` promises only that no `javascript:` href is left in
  the form the last pass of the source targets. It does not claim safety against an
  event handler that no space precedes (`<a/onclick=…>`), an entity-encoded or
  white-space-split scheme (`java&#115;cript:`), or other URL-bearing attributes.

## Findings

| source | as written | input that shows it | evidently intended | confidence | as-written member | corrected member |
|---|---|---|---|---|---|---|
| functions/api/annotations/list.ts:8 | `Math.min(Number(limit) \|\| 50, 200)` lets a negative limit through, and SQLite's `LIMIT -1` means no limit | `GET /api/annotations/list?slug=s&limit=-1` | at most 200 rows per page | not executed | Listing.LimitAsWritten, Listing.NegativeLimitUncapped, Listing.NegativeLimitListsAll | Listing.ListLimit, Listing.ListReturnsPublished |
| src/lib/sanitizer.ts:38-39 | the last pass removes only a quoted `javascript:` href; an anchor opener without a closing `</a>` is left alone by the anchor pass and spared by the other-tag pass, so an unquoted `javascript:` href in it survives | `<a href=javascript:x>y` | no `javascript:` href in the output, as the comment at line 38 says | not executed | Sanitizer.SanitizeHtml, SanitizerCorrected.UnclosedAnchorKept | SanitizerCorrected.SanitizeHtml, SanitizerCorrected.NoScriptSchemeLeft, SanitizerCorrected.UnclosedAnchorCleaned, Content.PrepareContentCorrected |
| leptos-app/src/app.rs:68-69 | `str::find` returns a byte offset, which is used as a character offset for `start`/`end` and by `chars().skip` | selecting `x` in the article text `éx` | character offsets of the selection (1 and 2) | not executed | Reader.CurrentSelectionAsWritten, Reader.ByteOffsetMisplaces, Reader.ByteOffsetEnvelope | Reader.CurrentSelection, Reader.EnvelopeAroundSelection |
