# Wasteland mods storefront: a verified model of its core

This project models, in Dafny, the logic at the heart of a Next.js storefront
that sells mods for DayZ servers:

- the purchase ledger (`savePurchase`, `getUserPurchases`, `hasUserPurchasedMod`);
- the checkout route, which validates a bearer token and a cart and records
  one purchase row per item;
- the client-side shopping cart;
- the Steam sign-in flow: the OpenID `checkid_setup` redirect, the callback
  that stores Steam data in the user's metadata, and the older link route
  that writes the Steam id into the user's table row;
- the mod upload script's storage paths;
- the registration form's validation;
- the rotating hero banner;
- the font-preload helper.

Each handler is a pure function. Its inputs are the request, the data it reads,
and the outcomes of the external calls it makes: token validation, database
insert and query, Steam Web API, session lookup, metadata update and storage
upload. Its result is the response or redirect, plus the new data.

Two helper modules support the rest. `Strings` covers JavaScript's `split`,
`startsWith` and `includes`. `UriEncoding` covers `encodeURIComponent` and
`URLSearchParams` serialisation over UTF-8, together with reference decoders.
Round trips between the encoders and decoders are proved.

Modules follow the source files:

| module | file |
|---|---|
| `Ledger` | app/lib/db.ts |
| `Checkout` | app/api/checkout/route.ts |
| `Cart` | app/context/CartContext.tsx |
| `SteamLogin` | app/api/auth/steam/route.ts |
| `SteamCallback` | app/api/auth/steam/callback/route.ts |
| `SteamLink` | app/api/steam/route.ts |
| `UploadMod` | scripts/upload-mod.js |
| `Register` | app/auth/register/page.tsx |
| `Hero` | app/components/RotatingHero.tsx |
| `FontPreload` | app/lib/clientUtils.ts |

## Model

| member | source | states |
|---|---|---|
| Strings.LastSegmentIsTail | app/api/auth/steam/callback/route.ts:22 | `split('/').pop()` is exactly the text after the last separator (all of the string when there is none), and contains no separator |
| Strings.FirstSegmentIsHead | app/lib/clientUtils.ts:32 | `split('-')[0]` is exactly the text before the first separator |
| Strings.LastSegmentEmpty | app/api/auth/steam/callback/route.ts:22-27 | the extracted segment is empty exactly when the string is empty or ends with the separator |
| Strings.JoinSplit | app/lib/clientUtils.ts:32 | joining the pieces of a split with the separator gives back the string |
| UriEncoding.Utf8RoundTrip | app/api/auth/steam/callback/route.ts:18 | decoding the UTF-8 encoding of any string gives the string back |
| UriEncoding.RoundTrip | app/api/auth/steam/callback/route.ts:18 | decoding `encodeURIComponent(s)`, or the form encoding of `s`, gives `s` back |
| UriEncoding.EncodedHasNoSeparators | app/api/auth/steam/callback/route.ts:18 | an encoded value contains no `&`, `=`, `?`, `#` or space, so it cannot break the query it is placed in |
| UriEncoding.QueryRoundTrip | app/api/auth/steam/route.ts:15-25 | parsing a serialised `URLSearchParams` gives back exactly its name/value pairs, in order |
| Ledger.BuildRows | app/lib/db.ts:31-38 | one row per item, in order, each with the caller's user id, the item's id and price, the transaction id, the timestamp and status `completed` |
| Ledger.BuildRowsRecordsItems | app/lib/db.ts:31-38 | the items recorded by the built rows are exactly the cart's items |
| Ledger.DatabaseErrorMessage | app/lib/db.ts:55-58 | the message is `Database error (`, the code (`UNKNOWN` when missing), `): `, then the error's message, else its details, else the fixed fallback text |
| Ledger.SavePurchase | app/lib/db.ts:16-77 | the three input checks in order with their messages; success exactly when all pass and the insert returns rows; the rows returned are the built rows (user id, items, transaction id, `completed`) and are appended; a failed insert leaves the ledger unchanged and reports `Database error (<code>): <message>`; an insert without data appends the rows and reports that no data was returned |
| Ledger.CompletedRowsOf | app/lib/db.ts:94-95 | the rows selected are exactly the user's rows with status `completed` |
| Ledger.GetUserPurchases | app/lib/db.ts:82-107 | one entry per completed row of the user, in ledger order and with repeated rows kept, without the user column; every listed status is `completed`; `[]` when the query fails or returns nothing |
| Ledger.FirstGrant | app/lib/db.ts:114-120 | the `.limit(1)` row is the first completed row of the user for the mod; there is none exactly when no row grants it |
| Ledger.HasUserPurchasedMod | app/lib/db.ts:112-132 | true exactly when the lookup succeeds and some completed row of the user is for the mod |
| Ledger.SaveGrantsEveryItem | app/lib/db.ts:16-77 | after a save whose insert went through, the user owns every item of the cart |
| Ledger.SaveKeepsEntitlements | app/lib/db.ts:47-50 | a save never removes an entitlement |
| Ledger.OnlyCompletedRowsGrant | app/lib/db.ts:119 | a row with any other status never changes any entitlement |
| Ledger.SavingTwiceDuplicatesRows | app/lib/db.ts:47-50 | the insert is not idempotent: repeating a save appends every row again |
| Ledger.CompletedRowsOfAppend | app/lib/db.ts:94-95 | the completed rows of two runs of rows are those of each run, in order |
| Ledger.SaveExtendsUserPurchases | app/lib/db.ts:82-107 | a successful save lengthens the user's listing by exactly the number of items |
| Ledger.EntitlementMatchesListing | app/lib/db.ts:112-132 | `hasUserPurchasedMod` is true exactly when `getUserPurchases` lists a purchase of that mod |
| Checkout.Token | app/api/checkout/route.ts:27-28 | the header is `Bearer ` followed by the token |
| Checkout.HasBearer | app/api/checkout/route.ts:18-19 | the header is usable exactly when it is present and its first seven characters are `Bearer ` |
| Checkout.ToItems | app/api/checkout/route.ts:94-101 | each validated element becomes the item with its string id and number price, in order |
| Checkout.HandleBody | app/api/checkout/route.ts:63-158 | for a validated user: 400 for an unparseable body, 500 for a `null` body, then 400 for missing, non-array or empty items, then 400 for a missing transaction id, then 400 for a malformed item, then 500 for every failed save, with a failed insert's database message; 400 leaves the ledger alone; on 200 the saved rows are the body's items, carry the body's transaction id and belong to the user |
| Checkout.Post | app/api/checkout/route.ts:11-159 | 401 without a bearer header, and with the message of each token failure; a validated user's request is handled by the body checks and the save with that user's id; 401 exactly when no user was validated; only 200, 400, 401 and 500 occur; 400 and 401 leave the ledger alone |
| Checkout.SuccessExactly | app/api/checkout/route.ts:11-138 | 200 exactly when the header names a user with a non-empty id, the body is well formed and the insert returned its rows |
| Checkout.BodyUnreadWithoutBearer | app/api/checkout/route.ts:18-25 | without a bearer header the body makes no difference and nothing is saved |
| Checkout.OnlyTheTokenMatters | app/api/checkout/route.ts:28-33 | the validated token is the header's text after `Bearer ` |
| Checkout.BodyUserIdIgnored | app/api/checkout/route.ts:75 | a `userId` field in the body changes nothing |
| Checkout.OneBadItemRejectsAll | app/api/checkout/route.ts:94-108 | one malformed item gives 400 and saves nothing |
| Cart.IsInCart | app/context/CartContext.tsx:71-73 | true exactly when some item has the id |
| Cart.AddToCart | app/context/CartContext.tsx:48-53 | the id is in the cart afterwards and nothing else is added; existing items keep their places and the given item is appended after them when its id was absent; no duplicate id is introduced; the length grows by one exactly when the id was absent |
| Cart.AddToCartAsWritten | app/context/CartContext.tsx:48-53 | the item is appended to the latest list exactly when the rendered list lacks its id |
| Cart.AsWrittenAgreesWhenFresh | app/context/CartContext.tsx:48-53 | with a fresh render the handler as written behaves as `AddToCart` |
| Cart.StaleCheckDuplicates | app/context/CartContext.tsx:48-53 | two adds of one item before a re-render leave it in the cart twice |
| Cart.AddTwiceIsAddOnce | app/context/CartContext.tsx:48-53 | with the check made on the latest list, adding twice is adding once |
| Cart.RemoveFromCart | app/context/CartContext.tsx:55-57 | keeps exactly the items with another id; the id is gone afterwards |
| Cart.ClearCart | app/context/CartContext.tsx:59-61 | the cart is empty, with count 0 and total 0 |
| Cart.GetCartTotal | app/context/CartContext.tsx:63-65 | the total of a one-item cart is its price, and no cart without negative prices has a negative total |
| Cart.GetItemCount | app/context/CartContext.tsx:67-69 | the count is 0 exactly when no id is in the cart |
| Cart.TotalIsSum | app/context/CartContext.tsx:63-65 | the reduction from 0 is the sum of the prices |
| Cart.TotalAfterAdd | app/context/CartContext.tsx:48-65 | adding raises the total by the price, or not at all for an id already present |
| Cart.RemoveOfAppend | app/context/CartContext.tsx:55-57 | removal keeps order: it distributes over concatenation |
| Cart.AddThenRemove | app/context/CartContext.tsx:48-57 | removing a just-added item restores the cart |
| Cart.RemovePresent | app/context/CartContext.tsx:55-57 | in a duplicate-free cart, removal drops exactly the one item with that id |
| Cart.TotalAfterRemove | app/context/CartContext.tsx:55-65 | removing an item lowers the total by its price |
| Cart.RemoveKeepsUnique | app/context/CartContext.tsx:55-57 | removal keeps the ids distinct |
| Cart.CountAfterRemove | app/context/CartContext.tsx:55-69 | the count drops by one exactly when the id was present |
| SteamLogin.Host | app/api/auth/steam/route.ts:10 | the Host header, or `localhost:3000` when it is missing or empty |
| SteamLogin.ReturnTo | app/api/auth/steam/route.ts:12 | the return URL is the realm followed by exactly `/api/auth/steam/callback` |
| SteamLogin.Params | app/api/auth/steam/route.ts:15-22 | the six OpenID parameters with their values |
| SteamLogin.LoginRedirect | app/api/auth/steam/route.ts:24-26 | the redirect is the Steam endpoint, `?`, and a query that parses back to exactly the six parameters |
| SteamLogin.ProtocolChoice | app/api/auth/steam/route.ts:10-11 | `http` exactly for hosts mentioning `localhost`, `https` otherwise; `http` without a Host header |
| SteamLogin.RealmCoversReturnTo | app/api/auth/steam/route.ts:12-19 | the realm sent is a prefix of the return URL sent |
| SteamCallback.CallbackUrl | app/api/auth/steam/callback/route.ts:14 | `callbackUrl`, or `/account` when missing or empty |
| SteamCallback.SteamId | app/api/auth/steam/callback/route.ts:22 | the Steam id is the claimed id's text after its last `/` |
| SteamCallback.Decide | app/api/auth/steam/callback/route.ts:16-104 | the error code for each failed check in order: `steam_auth_failed`, `invalid_steam_id`, `steam_api_configuration`, `steam_api_error` for a failed fetch, `steam_profile_not_found`, `auth_session_error`, `steam_api_error` for a thrown session read, a pending link without a session, then the metadata of the first player written for a signed-in user, followed by `steam_link_failed` for an update error, `steam_api_error` for a thrown update or a callback URL the URL parser rejects; a linked or callback redirect only after a successful update |
| SteamCallback.Get | app/api/auth/steam/callback/route.ts:8-109 | every redirect is to the account page except the caller's callback URL after a link; a missing claimed id gives the `steam_auth_failed` URL carrying the encoded callback URL |
| SteamCallback.Render | app/api/auth/steam/callback/route.ts:18-103 | the callback target is the callback URL itself; an error redirect begins `/account?error=<code>&callbackUrl=`; a pending link begins `/account?steamPending=<id>&steamUsername=` |
| SteamCallback.RenderedOnAccountPage | app/api/auth/steam/callback/route.ts:18-103 | every target except the callback URL starts with `/account?` |
| SteamCallback.AuthFailedUrl | app/api/auth/steam/callback/route.ts:16-19 | a missing claimed id redirects to `/account?error=steam_auth_failed&callbackUrl=` followed by the encoded callback URL |
| SteamCallback.ErrorPageOnAccount | app/api/auth/steam/callback/route.ts:18 | an error redirect starts with `/account?` |
| SteamCallback.PendingLinkOnAccount | app/api/auth/steam/callback/route.ts:72 | a pending-link redirect starts with `/account?` |
| SteamCallback.UpdateExactlyWhenSignedIn | app/api/auth/steam/callback/route.ts:78-85 | the metadata update is made exactly when every earlier check passed and a user is signed in |
| SteamCallback.PendingWithoutSession | app/api/auth/steam/callback/route.ts:67-74 | without a session the redirect carries the Steam id, the encoded persona name and the encoded callback URL |
| SteamCallback.LinkedRedirect | app/api/auth/steam/callback/route.ts:94-104 | after a successful update the browser goes to the callback URL unless it is `/account`, then to `/account?steam=linked`; a callback URL the parser rejects ends on the `steam_api_error` page although the metadata was written |
| SteamCallback.ErrorRedirectCarriesCallback | app/api/auth/steam/callback/route.ts:18 | an error redirect's `callbackUrl` parameter decodes back to the callback URL |
| SteamCallback.EmptySteamIdExactly | app/api/auth/steam/callback/route.ts:22-27 | `invalid_steam_id` arises exactly for a claimed id ending in `/` |
| SteamLink.ResolveUser | app/api/steam/route.ts:47-69 | the session id when truthy; otherwise, for a truthy email, one lookup with that email, whose found id is the user (none when it finds nothing or throws) |
| SteamLink.SessionUser | app/api/steam/route.ts:47-69 | no session means no user and no lookup; any lookup made is an email lookup |
| SteamLink.Get | app/api/steam/route.ts:10-96 | the session is read first and a throw there fails the request; a missing claimed id gives `steam_auth_failed`, an empty Steam id `invalid_steam_id`; then the profile is fetched for that Steam id, a throw giving `steam_link_failed` and a missing first player `steam_profile_fetch_failed`; the only write is the claimed id's Steam id, last, for a non-empty user id, followed by `steam_link_failed` if it throws and `steam=linked` otherwise; the row written is the session's id when truthy, otherwise the id the email lookup found |
| SteamLink.WrittenExactly | app/api/steam/route.ts:47-91 | the Steam id is written exactly when every check passed and a user id was found; linked exactly when that write did not throw |
| SteamLink.LookupOnlyWithoutSessionId | app/api/steam/route.ts:50-60 | the email lookup happens only without a truthy session id and with a truthy email, and it uses that email |
| SteamLink.SessionIdWins | app/api/steam/route.ts:50-53 | with a truthy session id the email lookup is irrelevant and the write goes to that id |
| SteamLink.NoUserNoWrite | app/api/steam/route.ts:71-75 | without a findable user the browser is sent to sign in and nothing is written |
| UploadMod.StripTrailingSlashes | scripts/upload-mod.js:58 | the result is a prefix of the path without a trailing `/`, and only slashes were removed |
| UploadMod.Basename | scripts/upload-mod.js:58 | the base name is the text after the last `/` of the path without its trailing slashes, and contains no `/` |
| UploadMod.LastIndex | scripts/upload-mod.js:59 | the index of the last occurrence of the character |
| UploadMod.Extname | scripts/upload-mod.js:59 | the extension is a suffix of the name, empty or starting with a dot |
| UploadMod.ExtnameShape | scripts/upload-mod.js:59 | the extension runs from the last dot to the end when that dot is not the first character and the name is not `..`; it is empty otherwise; it is a proper suffix with no further dot |
| UploadMod.ZipExtension | scripts/upload-mod.js:58-59 | `./mods/x.zip` has the extension `.zip` |
| UploadMod.Version | scripts/upload-mod.js:44 | the third argument, or `latest` when it is missing or empty |
| UploadMod.VersionedPath | scripts/upload-mod.js:62 | the path is the mod id, `/`, the mod id, `-v`, then the version and the extension |
| UploadMod.LatestPath | scripts/upload-mod.js:63 | the path is the mod id, `/`, the mod id, `-latest`, then the extension |
| UploadMod.Run | scripts/upload-mod.js:21-114 | exit codes 0 and 1 only; fewer than two arguments uploads nothing; the versioned path is tried first and only for an existing file; the latest path is tried only after the versioned upload succeeded; exit 0 exactly when both environment variables are non-empty, the file exists and neither upload fails |
| UploadMod.PathsUnderModFolder | scripts/upload-mod.js:62-63 | both storage paths start with `<modId>/` |
| UploadMod.PathsDistinct | scripts/upload-mod.js:62-63 | the versioned and latest paths always differ |
| UploadMod.VersionRecoverable | scripts/upload-mod.js:62 | the version can be read back from the versioned path |
| UploadMod.VersionedPathInjective | scripts/upload-mod.js:62 | two versions share a versioned path exactly when they are equal |
| UploadMod.EnvironmentFirst | scripts/upload-mod.js:22-26 | a missing or empty environment variable exits with 1 before anything else |
| UploadMod.SuccessStoresBoth | scripts/upload-mod.js:67-95 | a successful run leaves the file's bytes at both paths and nothing else changed |
| UploadMod.VersionedFailureAborts | scripts/upload-mod.js:74-77 | a failed versioned upload exits with 1 before the latest upload, bucket unchanged |
| UploadMod.LatestIgnoresVersion | scripts/upload-mod.js:63 | the latest path is the same whatever version is given |
| Register.HandleChange | app/auth/register/page.tsx:17-23 | the named field takes the value and every other field is unchanged |
| Register.Utf16Length | app/auth/register/page.tsx:34 | one unit for a character of the Basic Multilingual Plane and two for one outside it; a string of only one kind has the length that gives; the length lies between the number of characters and twice that |
| Register.Utf16LengthAppend | app/auth/register/page.tsx:34 | the length of a concatenation is the sum of the lengths |
| Register.Submit | app/auth/register/page.tsx:25-54 | a mismatch gives only the mismatch message; loading starts exactly for matching passwords of at least eight units |
| Register.ChangesCompose | app/auth/register/page.tsx:17-23 | a second change of a field overrides the first; changes of different fields commute |
| Register.SubmitOutcome | app/auth/register/page.tsx:25-54 | the final state for each case: the mismatch message first, then the length message, otherwise loading off and the not-implemented message |
| Register.LoadingWhileWaiting | app/auth/register/page.tsx:39-40 | while waiting, loading is on and the error is cleared |
| Register.AstralPasswordPasses | app/auth/register/page.tsx:34 | four characters outside the Basic Multilingual Plane pass the length rule |
| Hero.Step | app/components/RotatingHero.tsx:35-37 | from an index in range the next index is in range and is the successor modulo the count |
| Hero.Rotate | app/components/RotatingHero.tsx:29-45 | a rotation fades out, then changes the index, then fades in |
| Hero.StepNIsModular | app/components/RotatingHero.tsx:35-37 | `k` steps from `i` give `(i + k) mod 3` |
| Hero.FullCycle | app/components/RotatingHero.tsx:35-37 | three steps return to the starting index |
| Hero.AlwaysInBounds | app/components/RotatingHero.tsx:24-64 | every reached state, inside a rotation too, indexes an existing image |
| Hero.ShownAfter | app/components/RotatingHero.tsx:64-69 | after `k` rotations the banner shows image `k mod 3`; after three it is back to the start |
| FontPreload.FontName | app/lib/clientUtils.ts:32 | the font name is never empty and contains no `/` or `-` |
| FontPreload.HandleFontPreloads | app/lib/clientUtils.ts:9-52 | nothing happens without a window or once handled; otherwise the flag is set (even without links) and one div of spans is attached to the body or queued for load |
| FontPreload.Loaded | app/lib/clientUtils.ts:44-46 | on load the queued divs are attached to the body |
| FontPreload.RunsOnce | app/lib/clientUtils.ts:14-51 | calling twice is calling once |
| FontPreload.FontNameIsStem | app/lib/clientUtils.ts:32 | the name is the text before the first `-` of the text after the last `/`, or `font` |
| FontPreload.SpansPerLink | app/lib/clientUtils.ts:29-38 | one span per link with a truthy `href`, in link order |
| FontPreload.SpanOfLink | app/lib/clientUtils.ts:30-37 | a link's span names its font as `"<name>", sans-serif` |
| FontPreload.BodyNowOrLater | app/lib/clientUtils.ts:41-47 | whether the body exists now or appears later, after load it holds the same divs |

## Left out

- Network, database and browser effects are not modelled as behaviour. This covers Supabase, Prisma, the Steam Web API, storage uploads, React state, timers, the DOM, localStorage and `console` output. Their outcomes are parameters, and `new Date()` timestamps are an opaque string.
- Prices and amounts are integers. JavaScript numbers are floating point, and NaN or infinities pass the checkout's `typeof price === 'number'` test. Rounding is not modelled.
- The database's generated row `id` is not modelled. Neither is the row order of a query result: rows are listed in ledger order.
- Checkout.Post: JSON bodies are modelled as values without prototypes, so `'id' in item` sees only own properties. `savePurchase`'s fourth argument is ignored by the callee and is not modelled.
- Redirect targets are the relative strings handed to `new URL(..., request.url)`; the absolute URL the constructor resolves them to is not computed. Only whether the callback handler's `callbackUrl` is accepted by the URL parser is modelled, as a parameter, because a rejected one throws; every other target starts with `/` and always resolves.
- OpenID assertion verification (section 11.4 of OpenID Authentication 2.0) is not performed by the handlers: they trust `openid.claimed_id` as received, and so does the model.
- SteamCallback.Decide: a `players[0]` that is `null` or not an object makes the handler throw while reading `personaname`. It would then be caught as `steam_api_error`; the model takes every player to be an object.
- The outer `catch` blocks of the Steam handlers are unreachable in the model, apart from those reached by modelled throws. So is the outer `catch` of `uploadMod`, apart from the unreadable-file case, and the `catch` of the registration submit, whose simulated request never rejects.
- The UTF-8 and percent decoders are reference decoders used to state the round trips. They are strict, whereas the platform's decoders are lenient about malformed input; lenient decoding is not modelled.
- Strings are sequences of Unicode scalar values. Lone UTF-16 surrogates cannot occur in the model.
- Node's `path.basename` and `path.extname` are modelled for POSIX paths only.
- The cart's load from and save to localStorage are not modelled. A cart read back from storage is not checked for duplicate ids by the source, so `UniqueIds` is an invariant of the operations only.
- Hero.StepNIsModular: stated for the three images of the banner rather than for any number of images.

## Findings

| source | as written | input that shows it | evidently intended | confidence | as-written member | corrected member |
|---|---|---|---|---|---|---|
| app/context/CartContext.tsx:48-53 | the duplicate check reads the rendered `items`, but the update appends to the latest state `prev` | two `addToCart(item)` calls for the same item before a re-render: the cart holds the item twice | the check is made on the same list the item is appended to, so an id appears at most once | medium; not executed | Cart.StaleCheckDuplicates | Cart.AddTwiceIsAddOnce |
