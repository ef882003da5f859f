# tinylink link registry, modelled in Dafny

A model of the link-creation and link-listing handlers of tinylink, a URL
shortener (`app/api/links/route.ts`). The database table `Link` is replaced
by an abstract store, a sequence of rows, and each handler becomes a pure
function of the request and the store:

- `POST /api/links` (`Creation.Post`): checks the `url` property (present,
  a non-empty string, accepted by the URL check once trimmed), then either
  trims and checks a supplied `code` or runs the bounded retry loop that
  generates up to five random six-character codes, inserts one row, and
  answers 201, or answers 400, 409 or 500 without changing the table. The
  result also carries the trace of store calls (`Lookup` for `findUnique`,
  `Create` for `create`), so that "no lookup" and "at most five lookups" can
  be stated.
- `GET /api/links?q=...` (`Listing.Get`): keeps the rows that are not
  soft-deleted, narrows them to those whose code or target contains the
  query (ignoring case) unless the trimmed query is empty, orders them by
  `createdAt`, newest first, and projects each onto its JSON record with
  `shortUrl = baseUrl + "/" + code`.
- The short-code format `^[A-Za-z0-9]{6,8}$` (`Codes.IsValidCode`) and the
  generator over the 62-character alphabet (`Codes.GenerateCode`).
- JavaScript's `trim` (`Text.Trim`), with the exact ECMAScript white-space set.

Modules: `Options` (optional values), `Text` (trim, ASCII case folding,
substring search), `Urls` (the assumption made about the URL check), `Codes`,
`Links` (rows, store, JSON records, responses), `Creation` (POST), `Listing`
(GET) and `Lifecycle` (properties connecting the handlers).

Inputs the source takes from its environment are parameters:
`isValidUrl: string -> bool` is the URL check (its only assumed property,
`Urls.UrlCheckSound`, is that it accepts only input the URL parser reads
with scheme `http` or `https`); `draws: seq<Draw>` are the values of
`Math.floor(Math.random() * 62)`, thirty of them, enough for five attempts;
`now` is the store's clock for the new row's `createdAt`; `baseUrlSetting`
is the `NEXT_PUBLIC_BASE_URL` variable (absent means the default
`http://localhost:3000`).

The model follows the code as written, including three behaviours that are
easy to miss: a supplied `code` that is not a string is converted with `String(...)`
and then trimmed before the format check (so the number `123456` is a valid
code); a query made only of white space applies no filter, but a non-blank
query is searched for untrimmed, surrounding spaces included; and a request
body that is not JSON, or is JSON `null`, is answered 500, not 400.

## Model

| member | source | states |
|---|---|---|
| Text.Trim | app/api/links/route.ts:74 | `trim()` yields nothing exactly when the input is all ECMAScript white space, and otherwise a result that neither starts nor ends with white space |
| Text.TrimUnique | app/api/links/route.ts:74 | the trimmed string is the unique middle part between a white-space prefix and a white-space suffix whose ends are not white space |
| Text.TrimIdempotent | app/api/links/route.ts:81 | trimming an already trimmed code or URL changes nothing |
| Text.ContainsIffOccurs | app/api/links/route.ts:36-37 | the substring search behind `contains` succeeds exactly when the needle occurs at some position of the haystack |
| Codes.LeadingRun | app/api/links/route.ts:14 | the greedy `[A-Za-z0-9]{0,cap}` run is at most `cap` long, consists of code characters, and stops early only at a non-code character |
| Codes.IsValidCode | app/api/links/route.ts:13-15 | the anchored pattern holds exactly for strings of length 6 to 8 made of ASCII letters and digits |
| Codes.GenerateCode | app/api/links/route.ts:17-24 | `generateCode(n)` has length `n` and its i-th character is the alphabet character chosen by the i-th draw |
| Codes.AlphabetIsCodeChars | app/api/links/route.ts:18 | the alphabet has 62 characters, all ASCII letters or digits |
| Codes.DrawFor | app/api/links/route.ts:18-21 | every ASCII letter or digit is picked by some draw in [0, 62) |
| Codes.GeneratedCodeIsValid | app/api/links/route.ts:93 | a generated six-character code always satisfies `isValidCode` |
| Codes.EveryCodeIsReachable | app/api/links/route.ts:17-24 | every valid six-character code is produced by some sequence of draws |
| Urls.WebSchemeIsNonEmpty | app/api/links/route.ts:4-11 | a string the URL check may accept has at least the five characters of `http:`, so it is never empty |
| Links.FindUnique | app/api/links/route.ts:94 | the lookup by code finds a row of the store with that code, soft-deleted or not, and finds nothing exactly when no row has the code |
| Listing.Select | app/api/links/route.ts:32-39 | the `where` clause keeps each row, with its multiplicity, exactly when it is not soft-deleted and the query is blank or matches its code or target |
| Listing.InsertNewestFirst | app/api/links/route.ts:43 | inserting a row into a newest-first sequence keeps it newest-first and adds exactly that row |
| Listing.SortNewestFirst | app/api/links/route.ts:41-44 | `orderBy: { createdAt: 'desc' }` yields a permutation of its input ordered by `createdAt`, newest first |
| Listing.ListRows | app/api/links/route.ts:30-44 | the listed rows are exactly the selected rows with their multiplicities, newest first, and every one of them is a visible row of the store |
| Listing.Get | app/api/links/route.ts:46-57 | the answer is 200 with one record per listed row, in the same order, carrying the row's code, its target as `url`, `baseUrl + "/" + code` as `shortUrl`, and its clicks and timestamps |
| Listing.BlankQueryListsAllVisible | app/api/links/route.ts:34-39 | a query that trims to nothing applies no text filter: every visible row is listed |
| Listing.BlankIffAllSpace | app/api/links/route.ts:34 | a query counts as blank exactly when it is all white space |
| Listing.SearchListsExactlyMatches | app/api/links/route.ts:34-39 | with a non-blank query a row is listed exactly when it is a visible row of the store whose code or target contains the untrimmed query, ignoring ASCII case |
| Creation.CheckUrl | app/api/links/route.ts:70-78 | `url` passes exactly when it is a non-empty string whose trimmed form the URL check accepts, yields that trimmed form, and fails with 400 otherwise |
| Creation.CheckCode | app/api/links/route.ts:80-87 | a supplied code passes exactly when its trimmed string form is a valid code, yields that trimmed form, and fails with 400 otherwise |
| Creation.Candidates | app/api/links/route.ts:92-93 | the five codes the loop can try are six characters each, the k-th made of the alphabet characters picked by draws 6k to 6k+5, and each is a valid code |
| Creation.Allocate | app/api/links/route.ts:89-100 | the retry loop looks up the candidates in order and at most five of them; every candidate but the last it looked up was taken; a code it settles on is the last one looked up and no row has it; giving up means it looked up all remaining candidates and all were taken |
| Creation.AllocationFailsIffAllTaken | app/api/links/route.ts:89-103 | the loop ends without a code exactly when all five candidates are already in use |
| Creation.Insert | app/api/links/route.ts:106-131 | inserting a taken code (soft-deleted rows included) answers 409 and leaves the store as it was; otherwise it answers 201 with the new row's record and appends exactly one visible row with that code and URL; unique codes stay unique |
| Creation.Commit | app/api/links/route.ts:106-131 | inserting a valid code after the loop's lookups answers 201 or 409, 409 exactly when the code is taken; the trace is those lookups followed by exactly one insert call, the last call; the outcome has the common shape |
| Creation.WithSuppliedCode | app/api/links/route.ts:80-87 | an invalid trimmed code gives 400 with no store call; a valid one is inserted as trimmed with a single insert call and no lookup, and 409 comes exactly when it is taken |
| Creation.WithGeneratedCode | app/api/links/route.ts:89-111 | without a code the answer is 201 or 500, 500 exactly when all five candidates are taken (after five lookups) and with the generation error; the lookups are the candidates in generation order, each but the last taken, and on 201 the stored code is the last one looked up, so the first free candidate is stored |
| Creation.Post | app/api/links/route.ts:65-135 | statuses are 201, 400, 409 or 500; only 201 changes the store, appending one visible row with a fresh valid code and the trimmed URL the URL check accepted; at most five lookups and one insert; an unreadable body gives 500 and URL errors give 400, both before any store call; an invalid supplied code gives 400 with no store call; a valid supplied code is inserted with no lookup and gets 409 exactly when taken; without a code, 500 comes exactly when all five candidates are taken, and on 201 the stored code is the first free candidate, the lookups being the candidates in generation order |
| Lifecycle.PostKeepsAdmissible | app/api/links/route.ts:70-111 | if every row has a unique valid code and a target the URL check accepts, that stays true after any POST |
| Lifecycle.StoredTargetsAreWebUrls | app/api/links/route.ts:4-11 | in an admissible store every target has an http or https scheme and is non-empty |
| Lifecycle.VisibleRowIsListed | app/api/links/route.ts:32-55 | every row that is not soft-deleted appears, as its record, in the unfiltered listing |
| Lifecycle.CreatedLinkIsListed | app/api/links/route.ts:106-125 | the record a successful POST answers with appears in the unfiltered listing of the new store |
| Lifecycle.DeletedCodeIsNotReused | app/api/links/route.ts:94 | a code held by any row, soft-deleted included, is never given to a new row, and asking for it again yields 400 or 409 with the store unchanged |
| Lifecycle.ValidCodeIsTrimmed | app/api/links/route.ts:81-82 | trimming leaves a valid code as it is, so a valid code supplied without surrounding spaces is stored verbatim |
| Lifecycle.PostOnlyAppends | app/api/links/route.ts:106-111 | a POST never changes an existing row, so soft deletions and click counts survive it |

## Left out

- The WHATWG URL parser inside `isValidUrl` (app/api/links/route.ts:4-11) is a foreign library; the check is a parameter, assumed only to accept web-scheme input.
- `Math.random` and its floating-point arithmetic: the draws are given as indices in [0, 62).
- The store's clock and the schema defaults of a new row: the model fixes clicks at 0, no last click, not deleted, and takes `createdAt` as the parameter `now`. The schema file is not part of this model.
- Store failures other than a duplicate code (the 500 answers of app/api/links/route.ts:58-61 and 133): these are I/O errors with no decision of their own. An unreadable request body is modelled.
- The race between the lookup and the insert under concurrent requests: requests are applied one at a time.
- The database's case-insensitive matching is approximated by ASCII case folding, and `contains` is taken as a literal substring test.
- The order of rows with equal `createdAt` is unspecified by the database; the model fixes one, and its contracts claim only the newest-first order and the permutation.
- JSON encoding of timestamps and decoding of the query string: timestamps are integers and `q` arrives decoded.
- Strings are sequences of Unicode scalar values, while JavaScript strings are UTF-16 code units: a JSON body holding a lone surrogate has no counterpart in the model.
- The `console.error` logging of app/api/links/route.ts:59 and 127: it has no effect on the answer or the store.
- The redirect handler (app/[code]/route.ts), the single-link and delete handlers (app/api/links/[code]/route.ts), the health check (app/healthz/route.ts) and the dashboard pages (app/page.tsx, app/code/[code]/page.tsx): they are outside the modelled core.
