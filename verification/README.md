# pown-github, modelled in Dafny

A model of the core of `@pown/github`, the GitHub reconnaissance plugin for
Pown. It has four parts:

- **Filter builders** (`lib/filters.js`) turn free-form domain and brand
  lists into regular-expression sources for e-mail, company and bio
  fields.
- **Repository extractor** (`lib/utils.js`) finds `owner/name` among
  candidate strings.
- **REST client** (`lib/github.js`) builds the request headers, follows
  `link: <…>; rel="next"` pagination, turns API error payloads into
  thrown errors, and flattens pages into item streams for `search`,
  `repos`, `gists`, `orgs` and `members`.
- **Recon transforms** (`transforms/github/index.js`) cover the user
  search (filter assembly, AND/OR combination, `maxUsers` cap) and the
  org, member, repository and contributor listings.

Modules, one per component:

| file | module | models |
|---|---|---|
| base.dfy | `Base` | `Option`, `Result`, `Array.prototype.join` (`Join`), concatenation |
| text.dfy | `JsText` | JavaScript white space, `trim`, `split(/\s+/)`, and a reference definition `Words` |
| filters.dfy | `Filters` | `getTokens`, `getOptions`, the three filter builders |
| repoids.dfy | `RepoIds` | `isGithubRepo`, `isGithubRepoUrl`, `extractGithubRepo` |
| json.dfy | `Json` | decoded JSON values, truthiness, string conversion |
| github.dfy | `GithubClient` | the `Github` class |
| transforms.dfy | `Transforms` | the transform loops |

Each item stream is a `Run`: the items it produced, plus how it ended
(`Completed` or `Failed(failure)`). Each transform gives an `Outcome`:
either the nodes plus the per-item errors it reported, or the failure
that made it throw.

Behaviours worth noting:

- **Token join.** `getOptions` joins several tokens with `,`. This comes
  from template-literal array conversion, not from alternation, so
  `"x y"` and `"x,y"` give the same options string.
- **Link match.** The next-link match is case-sensitive.
- **Status check.** A non-200 status raises even when the body carries an
  empty `errors` list.
- **No extra lookups or retries.** `user` and `org` do not check the
  record's type, `repos` has no org fallback, and `fetch` has no
  rate-limit retry loop.

Every transform takes its client as a parameter. `Transforms.GetClient`
models the client `getClient` constructs (transforms/github/index.js:40-42),
and every lemma about the transforms holds for any client, that one
included. The event forwarding that follows it is taken as succeeding; see
"## Left out".

## Model

| member | source | states |
|---|---|---|
| JsText.SplitRunsWords | lib/filters.js:2 | `split(/\s+/)` followed by dropping empty pieces yields exactly the maximal non-space runs, in order |
| JsText.WordsTrim | lib/filters.js:2 | `trim()` before splitting never changes the tokens |
| JsText.WordsConcat | lib/filters.js:2 | the tokens, glued back together, are the input minus its white space: nothing lost or reordered |
| JsText.WordsOfJoin | lib/filters.js:2 | round trip: non-empty space-free tokens joined by spaces split back into the same tokens |
| JsText.TrimEmptyIffBlank | lib/filters.js:10 | a trimmed option is empty (falsy) exactly when it is all white space |
| JsText.Trim | lib/filters.js:2 | `trim()`: the result is empty or starts and ends with a non-space character; that it drops exactly the outer white space is used by WordsTrim and BuildersIgnorePadding |
| JsText.SplitRuns | lib/filters.js:2 | `split(/\s+/)` always gives at least one piece; what the pieces are is SplitRunsWords |
| Filters.EscapeRoundTrip | lib/filters.js:2 | the escaped token is a literal pattern, and removing each escaping backslash gives the token back |
| Filters.EscapePlain | lib/filters.js:2 | a token without metacharacters is left unchanged |
| Filters.EscapeAddsOnlyBackslashes | lib/filters.js:2 | escaping only inserts backslashes: every other character of the result comes from the token |
| Filters.Escape | lib/filters.js:2 | the metacharacter escaper (a backslash before each of `.*+?^${}()\|[]\\`); no contract of its own, its meaning is EscapeRoundTrip, EscapePlain and EscapeAddsOnlyBackslashes |
| Filters.Tokens | lib/filters.js:1-3 | `getTokens` is the escaped words of the input |
| Filters.Options | lib/filters.js:5-7 | `getOptions`: the tokens, comma-joined, in parentheses; no contract of its own, the round trip is DecodeOptionsInverse and the comma join OptionsJoinWithComma |
| Filters.TokensAreEscapedWords | lib/filters.js:1-3 | one token per word, in order; each non-empty, space-free, a literal pattern whose unescaping is its word |
| Filters.DecodeOptionsInverse | lib/filters.js:5-7 | for comma-free input, splitting `getOptions` on commas and unescaping recovers the words |
| Filters.OptionsJoinWithComma | lib/filters.js:5-7 | several tokens are comma-joined: for any two plain words, `"x y"` and `"x,y"` both give `(x,y)` |
| Filters.SplitOnJoin | lib/filters.js:5-7 | round trip: comma-free pieces joined by a comma split back into the same pieces |
| Filters.SameWordsSameGroup | lib/filters.js:1-12 | two lists with the same words give the same group |
| Filters.FiltersPresent | lib/filters.js:9-71 | the e-mail filter exists iff the domains are non-blank; the company and bio filters exist iff either list is non-blank |
| Filters.EmailFilterNoneIffBlank | lib/filters.js:9-24 | the e-mail filter is absent iff the domains are absent or blank; brands are never read |
| Filters.EmailFilterOfWord | lib/filters.js:9-24 | for a single word `d`, the e-mail filter is `(@(d escaped)$)` |
| Filters.EmailFilter | lib/filters.js:9-24 | `createEmailFilter`; no contract of its own, its meaning is FiltersPresent, EmailFilterNoneIffBlank and EmailFilterOfWord |
| Filters.EmailFilterExample | tests/filters.test.js:12 | `createEmailFilter({domains: 'bage.com'})` is exactly `(@(bage\.com)$)` |
| Filters.CompanyFilterShape | lib/filters.js:26-48 | absent iff both lists are blank; otherwise 1, 2 or 3 parts, the domain part first, then the exact and `@` brand parts |
| Filters.CompanyFilterOfWords | lib/filters.js:26-48 | for a single domain word and a single brand word, the company filter is the wrapped domain, exact and `@` parts joined by `\|` |
| Filters.CompanyFilter | lib/filters.js:26-48 | `createCompanyFilter`; no contract of its own, its meaning is FiltersPresent, CompanyFilterShape and CompanyFilterOfWords |
| Filters.CompanyFilterExample | tests/filters.test.js:45 | the company filter for domain `bage.com` and brand `bage`, character for character |
| Filters.BioFilterShape | lib/filters.js:50-71 | absent iff both lists are blank; otherwise the domain part, then one brand part with prefix `(@\s?\|(^\|\s)at\s\|ex-)` and suffix `(\s\|$)` |
| Filters.BioFilter | lib/filters.js:50-71 | `createBioFilter`; no contract of its own, its meaning is FiltersPresent and BioFilterShape |
| Filters.BuildersDependOnlyOnWords | lib/filters.js:1-71 | the builders see their lists only through their words |
| Filters.BuildersIgnorePadding | lib/filters.js:10-52 | leading and trailing white space on either list never changes any builder's result |
| RepoIds.MatchBareSound | lib/utils.js:1 | a bare match is the whole string `owner/name` or `owner/name.git`, both parts over `[a-z0-0-]` |
| RepoIds.MatchBareComplete | lib/utils.js:1 | every `owner/name` and `owner/name.git` over that class matches, with those groups |
| RepoIds.MatchBare | lib/utils.js:1 | `isGithubRepo` as a matcher; no contract of its own, MatchBareSound and MatchBareComplete state exactly which strings match and with which groups |
| RepoIds.MatchUrlSound | lib/utils.js:4 | a URL match starts with `https://github`, any non-terminator, `com/`, then `owner/name` ending at a non-name character or the end |
| RepoIds.MatchUrlComplete | lib/utils.js:4 | every such prefix matches, whatever follows it (`.git`, a query, more path) |
| RepoIds.MatchUrl | lib/utils.js:4 | `isGithubRepoUrl` as a matcher; no contract of its own, MatchUrlSound and MatchUrlComplete state exactly which strings match and with which groups |
| RepoIds.FirstMatch | lib/utils.js:7-21 | the index of the first candidate a matcher accepts, or none when no candidate matches |
| RepoIds.ExtractPrefersUrl | lib/utils.js:7-13 | the first URL-form candidate decides, even after a bare-form one |
| RepoIds.ExtractFallsBackToBare | lib/utils.js:15-21 | with no URL-form candidate, the first bare-form candidate decides |
| RepoIds.ExtractFailsIffNoMatch | lib/utils.js:6-24 | the extractor throws iff no candidate matches either form, with the candidates comma-joined in the message |
| RepoIds.Extract | lib/utils.js:6-24 | `extractGithubRepo` over the tested strings; no contract of its own, its meaning is ExtractPrefersUrl, ExtractFallsBackToBare, ExtractFailsIffNoMatch, ExtractShape and ExtractIdempotent |
| RepoIds.ExtractSingle | lib/utils.js:7-21 | for one candidate, the URL form's groups win and the bare form is tried only when it fails |
| RepoIds.ShowHasNoUrlHead | lib/utils.js:4 | a shown `owner/name` never has the URL form |
| RepoIds.ExtractShape | lib/utils.js:11-19 | every result is `owner/name` with both parts non-empty over `[a-z0-0-]` |
| RepoIds.ExtractIdempotent | lib/utils.js:1-24 | extracting from the extracted identifier alone gives it back |
| RepoIds.ExtractFrom | lib/utils.js:6-24 | over arbitrary argument values: a repository is found iff the string conversion of some argument matches either form, and it is what the extractor gives for those conversions; otherwise the message prints the argument array, where an absent or null argument prints empty |
| RepoIds.AbsentArgument | lib/utils.js:6-23 | an absent or null argument is tested as `undefined` or `null`, matches neither form, and prints as the empty string in the message |
| RepoIds.ExtractExamples | tests/utils.test.js:9-20 | the bare, URL, `.git` and query cases of the repository's tests |
| RepoIds.ExtractPrecedenceExamples | tests/utils.test.js:21-26 | the two cases where a URL wins over a bare identifier |
| Json.OrEmpty | transforms/github/index.js:393 | `x \|\| ''`: a falsy or missing field is the empty string, a string field itself |
| GithubClient.RequestHeaders | lib/github.js:8-16 | `user-agent` is always `Pown`; `authorization` is present iff a key or token is non-empty, `Basic` plus the base64 of the key if given, else of the token |
| GithubClient.NewGithub | lib/github.js:5-17 | the client's headers are the ones its options determine, and every request it makes carries them |
| GithubClient.Throw | lib/github.js:19-25 | an empty error list raises nothing; a non-empty one raises its first error; a non-iterable value raises a TypeError |
| GithubClient.ErrorOf | lib/github.js:21-23 | an error raises its `message` converted to a string; a null error is a TypeError |
| GithubClient.LinkAt | lib/github.js:52 | a match at an index captures a non-empty text without `>` that sits between the `<` at that index and the next `>`; the exact match condition is LinkAtMeaning |
| GithubClient.LinkAtMeaning | lib/github.js:52 | the pattern matches at index i capturing u iff the text from i starts with `<`, u, `>;`, any run of white space, `rel="next"`, where u is non-empty and holds no `>` |
| GithubClient.FirstLinkLeftmost | lib/github.js:52 | the leftmost index where the link pattern matches, or none when it matches nowhere |
| GithubClient.LinkAtEntry | lib/github.js:52 | at the start of an entry `<u>; rel`, the pattern matches exactly when `rel` starts with `rel="next"`, and captures `u` |
| GithubClient.NoLinkWithoutBracket | lib/github.js:52 | without a `<` there is no match |
| GithubClient.NextLink | lib/github.js:49-63 | no next link without a non-empty `link` header; a found link is non-empty |
| GithubClient.NextLinkLeftmost | lib/github.js:49-56 | in a non-empty header, the next link is the capture at the leftmost index where the pattern matches |
| GithubClient.NextLinkNone | lib/github.js:49-63 | there is no next link iff the header is absent, empty, or matched at no index |
| GithubClient.SecondEntryNext | lib/github.js:52 | for `<a>; rel, <b>; rel="next"…` where the first entry names another relation, the next link is `b` |
| GithubClient.PrevThenNext | lib/github.js:52 | `<a>; rel="prev", <b>; rel="next"` gives `b` |
| GithubClient.NextEntry | lib/github.js:49-63 | round trip: a header starting `<u>; rel="next"` yields `u` |
| GithubClient.OnlyEntryOtherRel | lib/github.js:52 | the relation is matched case-sensitively: another relation of the same length, such as `rel="NEXT"`, gives no next page |
| GithubClient.PageStep | lib/github.js:33-63 | each response decides one step: a transport or parse failure stops with it; a null body stops with a TypeError; truthy `errors` stop with the first error whatever the status; otherwise a non-200 status stops with the body's message; otherwise the page is yielded with the response's next link. Conversely a yielded page came from a 200 response without raising `errors` |
| GithubClient.RequestsNeverOutOfFuel | lib/github.js:33-63 | no single request of the client ends pagination for lack of fuel |
| GithubClient.Pages | lib/github.js:31-64 | the `do … while (uri)` loop over a step function: at most one page per unit of fuel; what it yields is PaginateYields and PaginateEnds |
| GithubClient.Paginate | lib/github.js:31-64 | `paginate` with the client's own requests; no contract of its own, its meaning is PaginateYields, PaginateEnds, ErrorsStopPagination, StatusStopsPagination and TwoPages |
| GithubClient.PaginateYields | lib/github.js:31-64 | for any request function, the client's included, pagination yields the page of each request in turn, starting at the given URI and following each next link |
| GithubClient.PaginateEnds | lib/github.js:47-64 | for any request function that never runs out of fuel itself, it completes exactly after the first page without a next link, and otherwise stops with the failing request's failure |
| GithubClient.ErrorsStopPagination | lib/github.js:37-41 | a non-empty `errors` list stops pagination with the first error, yielding nothing, whatever the status |
| GithubClient.StatusStopsPagination | lib/github.js:43-45 | a non-200 status without errors stops pagination with the body's own message, before the page is yielded |
| GithubClient.TwoPages | lib/github.js:31-64 | two linked pages are yielded in order, then the sequence ends |
| GithubClient.Iterate | lib/github.js:76-85 | arrays iterate over their elements; strings over their characters, each a one-character string; anything else is not iterable |
| GithubClient.FlattenConcat | lib/github.js:83-125 | when every page is iterable, the items are the pages' items concatenated in order |
| GithubClient.FlattenStops | lib/github.js:76-85 | the first non-iterable page ends the stream with a TypeError after the earlier pages' items |
| GithubClient.Flatten | lib/github.js:83-88 | the inner `for (let item of items)`: no pages give no items and end as the pagination did; the rest is FlattenConcat and FlattenStops |
| GithubClient.Listing | lib/github.js:83-125 | a paginated listing flattened; no contract of its own, its meaning is ListingOfArrays |
| GithubClient.Repos | lib/github.js:83-89 | `repos` lists `users/<name>/repos`; no contract of its own, see ListingOfArrays |
| GithubClient.Gists | lib/github.js:97-103 | `gists` lists `users/<name>/gists`; no contract of its own, see ListingOfArrays |
| GithubClient.Orgs | lib/github.js:111-117 | `orgs` lists `users/<name>/orgs`; no contract of its own, see ListingOfArrays |
| GithubClient.Members | lib/github.js:119-125 | `members` lists `orgs/<name>/members`; no contract of its own, see ListingOfArrays |
| GithubClient.ListingOfArrays | lib/github.js:83-125 | `repos`, `gists`, `orgs` and `members` yield exactly the concatenation of the page arrays |
| GithubClient.SearchSingleCategory | lib/github.js:67-70 | a single category is wrapped into a list, and no category means `code` |
| GithubClient.SearchConcat | lib/github.js:74-80 | the search yields every page's `items` for each category in turn |
| GithubClient.SearchStops | lib/github.js:74-80 | a failing category ends the search; later categories are never queried |
| GithubClient.Search | lib/github.js:67-81 | `search`; no contract of its own, its meaning is SearchSingleCategory, SearchConcat and SearchStops |
| GithubClient.Lookup | lib/github.js:91-109 | `user` and `org` return the parsed body; transport and parse failures throw |
| GithubClient.User | lib/github.js:91-95 | `user` looks up `users/<name>`; no contract of its own, see Lookup and LookupIgnoresStatus |
| GithubClient.Org | lib/github.js:105-109 | `org` looks up `orgs/<name>`; no contract of its own, see Lookup and LookupIgnoresStatus |
| GithubClient.LookupIgnoresStatus | lib/github.js:91-109 | the status code is not checked: an error response's body is returned as the record |
| Transforms.GetClient | transforms/github/index.js:39-42 | only the key is passed on, the environment's key standing in when the option is absent (not when it is empty); every request carries `user-agent: Pown`, and `authorization` exactly when that key is non-empty, built from it |
| Transforms.PredicateCount | transforms/github/index.js:267-361 | one filter per non-empty explicit pattern, three for a non-blank fuzzy domain list, two for a non-blank fuzzy brand list |
| Transforms.Predicates | transforms/github/index.js:265-361 | the filter list, in push order; no contract of its own, its meaning is PredicateCount, FuzzyDomainCount and FuzzyBrandCount |
| Transforms.FuzzyDomainCount | transforms/github/index.js:351-355 | a non-blank fuzzy domain list adds exactly three filters, a blank one none |
| Transforms.FuzzyBrandCount | transforms/github/index.js:296-303 | the fuzzy brand list never adds an e-mail filter |
| Transforms.Combine | transforms/github/index.js:363-373 | no filters pass everything; otherwise `orFilter` gives OR, else `andFilter` gives AND, else everything passes |
| Transforms.QuitWithoutFilters | transforms/github/index.js:374-377 | with no filters and `quitIfNoFilters` the result is empty, for every client |
| Transforms.BadPatternThrows | transforms/github/index.js:267-346 | a pattern that does not compile makes the transform throw before searching |
| Transforms.SearchHit | transforms/github/index.js:383-407 | a null hit throws; non-`User` hits are skipped; a failed lookup is reported, a null record as a TypeError; a record the filter accepts becomes the user node built from it, one it rejects is skipped |
| Transforms.Scan | transforms/github/index.js:379-408 | the `for await` loop with its `try` and cap; no contract of its own, its meaning is ScanCap, ScanPrefix, ScanUncapped, ScanAborts, ScanStopsAtCap and ScanNodesFound |
| Transforms.SearchUsers | transforms/github/index.js:260-411 | `githubSearchUsers.handle`; no contract of its own, its meaning is QuitWithoutFilters, BadPatternThrows, SearchUsersSound and SearchUsersComplete |
| Transforms.ScanCap | transforms/github/index.js:399-403 | the check after the push gives at most `max(maxUsers, 1)` nodes |
| Transforms.ScanPrefix | transforms/github/index.js:379-408 | the nodes are a prefix of the hits' nodes, in input order |
| Transforms.ScanUncapped | transforms/github/index.js:379-408 | without a cap, every node and every reported error in order, or the stream's failure |
| Transforms.ScanAborts | transforms/github/index.js:383 | an item that throws outside the `try`, before the cap, makes the transform throw |
| Transforms.ScanNodesFound | transforms/github/index.js:379-408 | every node the loop gives is the node of some item's hit |
| Transforms.ScanStopsAtCap | transforms/github/index.js:399-403 | when the items up to some point hold no throwing item and enough nodes to reach the cap, the loop breaks with exactly the first nodes up to the cap, whatever follows, even a throw or a failure of the stream |
| Transforms.SearchUsersInOrder | transforms/github/index.js:379-408 | the results are a prefix, in search order, of the users the filter accepts |
| Transforms.SearchUsersSound | transforms/github/index.js:260-411 | every result is a user node for the source whose profile passes the combined filter; at most `max(maxUsers, 1)` of them |
| Transforms.SearchUsersComplete | transforms/github/index.js:379-410 | uncapped, a completed search gives every accepted user in search order and every reported lookup error |
| Transforms.AccountHit | transforms/github/index.js:459-468 | a lookup that throws, or gives null, is reported; any other record becomes a node |
| Transforms.OrgHit | transforms/github/index.js:458-468 | a null org item throws; a found org is the node built from the record its login's lookup gave |
| Transforms.MemberHit | transforms/github/index.js:519-529 | a null member item throws; a found user is the node built from the record its login's lookup gave |
| Transforms.ListedAccounts | transforms/github/index.js:458-464 | when each item's hit is the account its login's lookup gave, every node of the listing is such an account |
| Transforms.ListOrgs | transforms/github/index.js:453-472 | every org node is built from the record the lookup gave for the login of some listed org |
| Transforms.ListMembers | transforms/github/index.js:514-533 | every user node is built from the record the lookup gave for the login of some listed member |
| Transforms.ListOrgsAccountsForEveryItem | transforms/github/index.js:453-472 | a completed listing without null items gives every org the lookups found and every error they raised, in listing order; so each item ends up as a node or a reported error |
| Transforms.ListMembersAccountsForEveryItem | transforms/github/index.js:514-533 | a completed listing without null items gives every user the lookups found and every error they raised, in listing order; so each item ends up as a node or a reported error |
| Transforms.ListMembersFails | transforms/github/index.js:519 | a failing listing makes the transform throw |
| Transforms.RepoHit | transforms/github/index.js:588-595 | a null repository throws; a fork is skipped exactly when `forks` is off |
| Transforms.ListRepos | transforms/github/index.js:581-599 | every repository node is for the source and is a listed repository, never a fork unless `forks` is set |
| Transforms.ListReposKeepsNonForks | transforms/github/index.js:581-599 | one node per kept repository, in order |
| Transforms.KeptAll | transforms/github/index.js:591-593 | with `forks` nothing is dropped |
| Transforms.KeptNonForks | transforms/github/index.js:591-593 | without `forks` a repository is kept exactly when it is not a fork |
| Transforms.Contributors | transforms/github/index.js:700-711 | every user node is built from the record the lookup gave for the login of some listed contributor |
| Transforms.ListContributors | transforms/github/index.js:695-714 | null properties throw a TypeError; every node is a user node built from a looked-up record |
| Transforms.ListContributorsMeaning | transforms/github/index.js:695-714 | an unreadable repository throws the extractor's message, which prints the label and the `uri` and `url` properties; otherwise, with no null items, the result is every contributor the lookups found and every error they raised, in order, or the failure of the contributor stream |

## Left out

- HTTP, the request scheduler and its concurrency: `Client.send` is a parameter, and a rejected request is a `Transport` failure.
- `JSON.parse`, `encodeURIComponent`, the query-string escaper and base64 are parameters of the client (`Client.parse`, `Client.encodeComponent`, `Client.encodeQuery`, the `base64` argument of `RequestHeaders`).
- Regular-expression compilation and matching: `Regex.compiles` and `Regex.test` are parameters, so case-insensitive matching is not modelled. The pattern strings are modelled exactly.
- `github.contributors` is called by the contributor listing, but `lib/github.js` does not define it. The contributor stream is a parameter of `ListContributors`.
- GithubClient.Paginate: a `fuel` bound caps the number of pages followed. Running out ends the stream with `OutOfFuel`, which the JavaScript generator has no counterpart for.
- Rate-limit retry, type checks in `user`/`org`, and the org fallback for `repos`: the code has none of these.
- RepoIds.MatchUrl: strings are sequences of code points, while a JavaScript regular expression without the `u` flag reads UTF-16 code units. The `.` between `github` and `com` takes one code unit, so a character outside the Basic Multilingual Plane there (`https://github😀com/a/b`) matches in the model but not in JavaScript. Elsewhere the difference does not show: the other patterns never count characters, and string iteration in JavaScript goes by code points too.
- JSON numbers are integers. Floating point, and its printing in string conversion, are not modelled.
- Property reads on strings and arrays other than iteration (`'abc'.length` and the like) give `undefined`. The code reads only named fields.
- `isGithubUrl` (lib/utils.js:3) is exported but never used by the core.
- The `githubUser`, `githubOrg` and `githubListGists` transforms; `gists` is modelled on the client side only.
- Transforms.GetClient: `Github` has no `on` method and extends nothing (lib/github.js:4-126), so as written the `github.on(…)` calls at transforms/github/index.js:44-47 throw a TypeError and every handler rejects before any request. The model takes the client built at line 42 and treats the forwarding as succeeding.
- Everything under `commands/`, transform metadata, event forwarding, and the `this.info`/`this.error` logging. Reported errors are collected in `Outcome.reported` instead.
- The lazy, pull-driven suspension of the generators: each stream is modelled as the items it would produce in full. A `break` in the search loop is modelled by ignoring what follows.
