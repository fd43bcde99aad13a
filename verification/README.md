# Client-side state of an art-sharing web front end, in Dafny

This project models the client-side state logic of a single-page front end
for an art-sharing social platform. It proves properties of that model.
Everything is sequential and deterministic once the server's answers, the
clock and the browser storage become inputs. The parts modelled are:

- **Artist store** (`artist-store.ts`). It keeps the viewed artist's uploaded artworks in an
  insertion-ordered JavaScript `Map` keyed by artwork id. Each server page
  folds in three parts: newly uploaded artworks (`New`), ids deleted since
  the last request (`Deleted`) and the next page of older artworks
  (`Requested`). The store then moves a date cursor forward. The store also
  keeps the follow and block counters that the viewer's actions adjust
  locally.
- **Stream store** (`stream-store.ts`). The same three-part merge over a plain list. Nothing is
  deduplicated. The store also keeps a cursor and an "exhausted" flag.
- **Relative dates** (`utilities.ts`). `FormatRelativeDate` turns a whole number of elapsed
  minutes into a phrase: seconds, minutes, rounded hours or rounded days.
- **Routing** (`routes.ts`, `index.ts`). The route table as data, and the global guard that sends
  unauthenticated users away from protected routes.
- **HTTP client** (`axios.ts`). The request interceptor adds an Authorization header. The
  response interceptor classifies failures by status.
- **User store** (`user-store.ts`). Sign-in, registration and sign-out are state transitions
  over the user object and the local storage that mirrors it.

Modules: `Wrappers` (Option/Result), `Seqs` (order-preserving filter,
first-occurrence deduplication `Fresh`, subsequences), `InsertionMap` (the
JavaScript `Map` as a sequence of entries with distinct keys), `ArtistStore`,
`StreamStore` (with `Identifiers` for the artwork id type they share),
`RelativeDate`, `Routes`, `Router`, `ApiClient`, `UserStore`.

The merge is easily summarised as "deduplicate by id", but the model follows
the code. The stream merge does not deduplicate at all. The artist merge
applies `Deleted` only to the artworks held before the page, so a new or
requested artwork listed as deleted is kept.

## Model

| member | source | states |
|---|---|---|
| InsertionMap.Set | src/stores/artist-store.ts:89-91 | `map.set`: an existing key keeps its position and takes the new value; a new key is appended; keys stay distinct; no other key's value changes |
| InsertionMap.Delete | src/stores/artist-store.ts:84-86 | `map.delete`: only that key's entry goes; the other keys keep their order and values |
| InsertionMap.DeleteAll | src/stores/artist-store.ts:84-86 | deleting a list of ids one by one removes exactly the entries whose key is in the list |
| InsertionMap.SetAllKeys | src/stores/artist-store.ts:78-81 | setting entries one by one appends the keys not yet present, in order of first occurrence, and keeps keys distinct |
| InsertionMap.SetAllGet | src/stores/artist-store.ts:89-91 | after setting entries one by one, each key set is bound to its last value in the list; other keys keep theirs |
| InsertionMap.FromEntries | src/stores/artist-store.ts:94-97 | `new Map(entries)`: distinct keys in order of first occurrence, each bound to its last value |
| InsertionMap.MergeSpread | src/stores/artist-store.ts:94-97 | `new Map([...a, ...b])`: `a`'s keys first, then `b`'s keys not in `a`; on a shared key `b`'s value wins |
| InsertionMap.FromOwnEntries | src/stores/artist-store.ts:94-97 | rebuilding a map from its own spread entries gives it back unchanged |
| InsertionMap.GetLastBinding | src/stores/artist-store.ts:94-97 | over an entry list with repeated keys, `get` finds the value of the last entry with the key |
| InsertionMap.GetEntry | src/stores/artist-store.ts:42 | in a map with distinct keys, every entry is what `get` returns for its key |
| ArtistStore.LoadArtworks | src/stores/artist-store.ts:94-101 | the merged collection is a map with distinct keys; the cursor becomes the last requested artwork's `Added`, or is unchanged when none was requested |
| ArtistStore.LoadArtworksOrder | src/stores/artist-store.ts:78-97 | the keys after a load follow the reference order `MergedOrder`: new ids in first-occurrence order, then surviving old ids not among them in old order, then requested ids present in neither, in response order |
| ArtistStore.LoadArtworksIds | src/stores/artist-store.ts:78-97 | the ids held are exactly the reference set `MergedIds`, New ∪ (old − Deleted) ∪ Requested, each once; a deleted id that is also new or requested stays |
| ArtistStore.MergedOrderElems | src/stores/artist-store.ts:78-97 | the reference order lists exactly the reference set of ids |
| ArtistStore.LoadArtworksValues | src/stores/artist-store.ts:78-97 | the artwork under each id: the last requested version; else the stored one if it survived; else the last new version |
| ArtistStore.RequestedExistingKeepsPlace | src/stores/artist-store.ts:89-91 | a requested artwork already held sits in the middle block of the result, right after the new ids, which lists the surviving old ids that are not new in their old order; it takes the requested version |
| ArtistStore.NewIdsLead | src/stores/artist-store.ts:94-97 | every id listed as new sits in the leading block of the result, whose length is the number of distinct new ids, and nowhere after it |
| ArtistStore.NewExistingKeepsStoredVersion | src/stores/artist-store.ts:94-97 | an artwork both new and already held sits in the leading new block but keeps the stored version |
| ArtistStore.EmptyPageKeepsArtworks | src/stores/artist-store.ts:78-97 | a page with no new, deleted or requested artworks leaves the collection unchanged |
| ArtistStore.LoadArtworksWellFormed | src/stores/artist-store.ts:76-97 | loading keeps every artwork stored under its own id |
| ArtistStore.NewArtworksKeys | src/stores/artist-store.ts:78-81 | the map built from `New` holds the new ids once each, in first-occurrence order |
| ArtistStore.ExtendedKeys | src/stores/artist-store.ts:83-91 | after deletions and the requested page: the surviving old ids in order, then the requested ids not among them |
| ArtistStore.ResetArtworks | src/stores/artist-store.ts:55-58 | the collection is empty and the cursor restarts at the given time |
| ArtistStore.AddUserAsFollower | src/stores/artist-store.ts:109-112 | the viewer follows and the follower count rises by one; nothing else changes |
| ArtistStore.RemoveUserAsFollower | src/stores/artist-store.ts:115-118 | the viewer no longer follows and the count falls by one; nothing else changes |
| ArtistStore.BlockUser | src/stores/artist-store.ts:121-126 | both follow flags clear, the artist is marked blocked, and the count falls by one in every case |
| ArtistStore.UnblockUser | src/stores/artist-store.ts:128-130 | only the blocked flag changes |
| ArtistStore.FollowThenUnfollow | src/stores/artist-store.ts:109-118 | follow then unfollow restores the count, and restores the whole profile for a non-follower |
| ArtistStore.UnfollowThenFollow | src/stores/artist-store.ts:109-118 | unfollow then follow restores a follower's profile |
| ArtistStore.BlockThenUnblock | src/stores/artist-store.ts:121-130 | unblocking does not restore the follow flags or the decremented count |
| StreamStore.Clear | src/stores/stream-store.ts:18-21 | the list is empty and the cursor restarts; the exhaustion flag and the last request time are untouched |
| StreamStore.UpdateStream | src/stores/stream-store.ts:23-44 | list = new ++ kept old ++ older page, with that total length; exhausted iff the page is empty; the cursor moves to the page's last `Added` when present; `lastRequest` is the clock value |
| StreamStore.KeptPreviews | src/stores/stream-store.ts:37 | the kept old previews are exactly those whose id was not deleted, with their multiplicity and relative order |
| StreamStore.UpdateStreamCounts | src/stores/stream-store.ts:37 | no deduplication: each preview occurs as often as in the new list, plus the old list unless deleted, plus the older page |
| StreamStore.EmptyPageKeepsStream | src/stores/stream-store.ts:37-43 | an empty page leaves the list unchanged and marks the stream exhausted |
| RelativeDate.Classify | src/utilities/utilities.ts:8-12 | the five cases are exclusive and cover every integer: under 1 minute, exactly 60, 1 to 59, 61 to 1439 with the hour count in 1..24 nearest m/60, and from 1440 on with the day count at least 1 and nearest m/1440 |
| RelativeDate.FormatRelativeDate | src/utilities/utilities.ts:5-13 | the phrase for each range of minutes: "seconds ago" below 1, "1 minute ago" at 60, "m minutes ago" from 1 to 59, "h hours ago" with h nearest m/60 up to 1439, "d days ago" with d nearest m/1440 from then on |
| RelativeDate.RoundDiv | src/utilities/utilities.ts:11-12 | `Math.round(m / d)` is the integer nearest m/d, halves rounded up |
| RelativeDate.DecimalRoundTrip | src/utilities/utilities.ts:10-12 | the count printed into the phrase reads back as the count |
| RelativeDate.SingularPhraseOnlyForOneMinute | src/utilities/utilities.ts:9-12 | only the singular case produces the text "1 minute ago" |
| RelativeDate.SingularMinuteMisplaced | src/utilities/utilities.ts:9-10 | as written, "1 minute ago" is shown for exactly 60 minutes and no other input, and 1 minute reads "1 minutes ago" |
| RelativeDate.ClassifyIntended | src/utilities/utilities.ts:8-12 | the corrected split: singular exactly at 1 minute, plural minutes from 2 to 59, hours from 60 |
| RelativeDate.IntendedSingularMinute | src/utilities/utilities.ts:9-10 | with the correction, "1 minute ago" appears iff m = 1, and the corrected split matches the written one everywhere except at 1 and 60 |
| Routes.FlatTable | src/router/routes.ts:3-42 | the table: the layout with its five children in order, then the catch-all |
| Routes.ProfileIsProtected | src/router/routes.ts:14-21 | `/profile` is in the table and requires authentication |
| Routes.StreamIsProtected | src/router/routes.ts:22-28 | `/stream` is in the table and requires authentication |
| Routes.AuthenticationIsOpen | src/router/routes.ts:9-13 | the route named 'authentication' exists and neither it nor its layout requires authentication |
| Routes.ArtworkIsOpen | src/router/routes.ts:29-32 | `/artworks/:artworkId` is in the table and requires no authentication |
| Routes.DefaultRedirectResolves | src/router/routes.ts:8-17 | the empty child path redirects to 'profile', a name the table defines |
| Routes.CatchAllIsLast | src/router/routes.ts:36-41 | the catch-all is the last top-level route and no earlier one has its path |
| Router.SomeAuthenticated | src/router/index.ts:28 | true iff some matched record is marked `authenticated` |
| Router.BeforeEach | src/router/index.ts:27-32 | redirect iff the user is unauthenticated and some matched record requires authentication; the only target is 'authentication' |
| Router.GuardProceeds | src/router/index.ts:27-32 | an authenticated user is never redirected, nor anyone on routes with no `authenticated` mark |
| Router.RedirectTargetIsReachable | src/router/index.ts:30 | the redirect target is a route of the table that the guard lets an unauthenticated user reach, so the redirect cannot loop |
| Router.ProtectedPagesRedirect | src/router/index.ts:28-30 | unauthenticated visits to profile and stream redirect; a visit to an artwork does not |
| ApiClient.AuthorizeRequest | src/boot/axios.ts:30-37 | with a user, Authorization is "Bearer: " + id (reading back as the id) and other headers are unchanged; without a user the config is untouched |
| ApiClient.OnResponseError | src/boot/axios.ts:48-72 | always rejects; signs out iff status 401; bad-request iff 400; internal-server iff 500; otherwise, or with no response, the original error |
| ApiClient.Settle | src/boot/axios.ts:43-47 | a 2xx response passes through unchanged with no sign-out |
| ApiClient.SettleCases | src/boot/axios.ts:43-71 | the whole classification, with the error fields taken from the response body |
| UserStore.IsAuthenticated | src/stores/user-store.ts:36 | authenticated iff the user's `Id` is truthy: present and not the empty string; the empty object `{}` is never authenticated |
| UserStore.Start | src/stores/user-store.ts:21 | the store starts with the stored user when there is one, otherwise the empty unauthenticated object, and storage is left as it was |
| UserStore.InitialUser | src/stores/user-store.ts:21 | the stored user if present, otherwise the empty, unauthenticated object |
| UserStore.Assign | src/stores/user-store.ts:29-33 | on reassignment, storage is cleared and then holds only the new user under 'user' |
| UserStore.RestartRestoresUser | src/stores/user-store.ts:21-33 | a restart after a reassignment comes up with the same user and the same authentication status |
| UserStore.SignOut | src/stores/user-store.ts:62-64 | the user becomes the empty object and storage holds exactly that object under 'user', so the user is unauthenticated now and after a restart |
| UserStore.Register | src/stores/user-store.ts:38-41 | on success the registration response becomes the user and is stored; on failure nothing changes and the error propagates |
| UserStore.SignIn | src/stores/user-store.ts:43-60 | on success the user is the response without `Status` and is stored; on failure storage is empty, the user is unchanged and the error is rethrown |
| UserStore.SignInAuthenticates | src/stores/user-store.ts:36-53 | signing in authenticates iff the response has a non-empty `Id`; `Status` never reaches the user |
| UserStore.FailedSignInForgetsOnRestart | src/stores/user-store.ts:43-59 | after a failed sign-in a restart comes up signed out |

## Left out

- HTTP transport: the requests (`api.get/post/put/delete`) and the client instance with its base URL. Server answers are inputs.
- The request interceptor's error handler passes the error on unchanged. It is not modelled separately.
- The `setArtist` and `updateName` actions, the user store's follow, unfollow, block and unblock actions, and the `followers`/`followed` lists. Each of these is a single HTTP call with no local logic, or a plain field assignment.
- Framework glue: reactivity (`ref`, `reactive`, `readonly`, `computed`) and the boot registration of the client. The watcher is modelled as running synchronously right after each reassignment of the user.
- The two-second `timer` in the user store, because it is clock-driven and asynchronous.
- Clock reads. `now` is a parameter of `ResetArtworks`, `Clear` and `UpdateStream`. The `latest`/`since` request parameters only shape the request.
- Date parsing in `FormatRelativeDate`: the input is the whole number of elapsed minutes. `FormatLongDate` is a call to the platform's date formatter.
- Router history construction and the router library's path matching. The guard receives the matched records.
- The artwork store: one fetch followed by an id override.
- The authentication store is not part of this model. The response interceptor reports its sign-out request as a flag, and the request interceptor takes the store's user as an optional input.
- JSON serialisation of the user into local storage is treated as a lossless round trip, so storage holds the object itself.
- Local storage entries other than 'user' are modelled as objects too.
- JavaScript numbers are unbounded integers here. The counters never approach 2^53.
- ArtistStore.LoadArtworks: `Added` is a required string of every uploaded artwork, as the type declares. The `?? earliestArtworkDate` fallback is taken only when no artwork was requested. A missing `Added` at run time is not modelled.
- The preview type the stream store imports is not part of this model. Stream items are modelled on the artwork preview shape: an id, an optional `Added` date and the other summary fields.

## Findings

| source | as written | input that shows it | evidently intended | confidence | as-written member | corrected member |
|---|---|---|---|---|---|---|
| src/utilities/utilities.ts:9-10 | the singular case tests `minutesDiff === 60` | 60 minutes gives "1 minute ago"; 1 minute gives "1 minutes ago" | test for one minute, so that "1 minute ago" means one minute and 60 minutes falls to "1 hours ago" | medium, not executed | RelativeDate.SingularMinuteMisplaced | RelativeDate.ClassifyIntended |

`FormatRelativeDate` itself keeps the code's behaviour. The corrected split
and its property are proved beside it. Another reading of the `=== 60` test
is that it was meant to print "1 hour ago" at sixty minutes; the corrected
split does not take that reading, and from 60 to 89 minutes it still prints
"1 hours ago", as the code does.
