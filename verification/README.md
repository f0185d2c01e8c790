# wavelen, verified

A Dafny model of the parts of wavelen that carry its promises, with proofs about them:

- **The account store** (`Database`, `Services`, `Invariant`, `AccountStore`, `Answers`, `Nicknames`,
  `Deadlock`, `Server`). Single SQL statements of any number of clients, interleaved in any order:
  private uncommitted inserts, row locks, commits, rollbacks, cancelled requests, cascading deletes. A
  statement reads the committed tables of its own instant and the inserts of its own transaction (READ
  COMMITTED, PostgreSQL manual section 13.2.1); a row lock excludes other lockers and writers (section
  13.3.2). `Services` runs each service as a program over these statements. `Server` writes the same
  services as method bodies on a shared object and proves every method to be steps of that machine,
  whatever other clients do between two statements, and every answer to be true of the rows at an
  instant of the call.
- **Tokens** (`Tokens`). Login's read and insert as two statements, logout, clocks, account deletion
  and signup under a freed nickname.
- **Listing** (`Text`, `Base64Url`, `Timestamp`, `Hexes`, `ColorSort`, `Cursor`, `Paging`, `Listing`,
  `HexTwice`) and **export** (`Export`). Keyset paging from the text of the cursor upwards (base64url of
  RFC 4648 sections 5 and 3.2, timestamps of RFC 3339 section 5.6), with rows added and deleted between
  pages.
- **Color** (`Reals`, `Hsl`, `Oklab`, `Gamut`, `Wheel`, `Derive`, `OklabInverse`, `SortKey`, `Contrast`).
  The conversions, searches and derived colors over exact reals. Cube root, square root, power, sine, cosine and arc
  tangent are parameters known by their laws (`Oklab.Lawful`).
- **Strips** (`Strips`). The strip cache of the page, its generation counter, and responses that land
  or fail in any order.

## What does not hold

- No *key* comes twice in a traversal, but a *hex* can: deleted and saved again between two pages it has
  a new `created_at`. Whatever times rows carry, no traversal from the first page returns a hex twice if
  and only if the sort is not `created_at` (`HexTwice.HexOnceUnlessByTime`). If a color saved again is
  never older than it was before, it is enough that the listing is not `created_at` oldest first, so the
  default order is safe (`HexTwice.HexOnceUnlessOldestFirst`). The store does not promise that: the
  default of the column is the start of the transaction, and an add that began first can wait for the
  lock and commit last. Both conditions are on sort and order, which a caller knows before the request,
  and hold for every page size.
- A cursor names the instant of its row if and only if the zone the time was printed in is a whole
  number of minutes off UTC, because RFC 3339 writes no seconds of an offset (`Cursor.CursorRoundTrip`).
- web/app.js says that the cache prevents stale bands from being added (lines 1029 to 1031) and that the
  button adds exactly the bands shown (line 1206). On an open page it adds something else if and only if
  the strip is empty, its request is still out and nonempty bands are cached, and those are of another
  selection or wheel (`Strips.AddsWhatIsShown`); that happens (`Strips.AddsUnseenBands`). On a page with
  no request out and none failed it adds exactly the right bands (`Strips.QuietPageAddsRight`).
- internal/storage/color_repo.go:12 says AddColor returns whether the color already was in the
  collection. The code returns the opposite, whether a row went in; the model follows the code.
- The collection quota holds over all runs if and only if it is at least one, because signup writes the
  default collection without counting (`AccountStore.CollectionQuotaHoldsIffPositive`); the
  configuration check refuses anything less.

Theorems about gamut membership speak of a test tied to oklabToLinear by `Gamut.IsGamutTest`, and
`Gamut.Shown` is one (`Gamut.ShownIsGamutTest`); `Oklab.IsLinear` and `Derive.IsPainter` tie
values to oklabToLinear and colorAt the same way. What such a test shows is a color with linear channels
in [0, 1] to within a billionth (`Gamut.ShownMeans`, `Oklab.InGamutMeans`).

## Model

| member | source | states |
|---|---|---|
| AccountStore.ColorQuotaHolds | internal/colorsvc/colorsvc.go:31-61 | in every reachable state the committed rows of a collection, and those together with the uncommitted insert of any client, are at most the quota |
| Answers.AddColorDecides | internal/colorsvc/colorsvc.go:41-58 | in every reachable state a saved color is answered as saved; any other is refused for the quota if and only if the committed rows were at the quota at an instant of the same transaction, and there are no more rows now |
| Answers.CreateCollectionDecides | internal/collectionsvc/collectionsvc.go:42-51 | a create is refused for the quota if and only if the user's committed collections were at the quota at an instant of the same transaction; else it goes on to commit the name asked for |
| Answers.ServesRequest | internal/colorsvc/colorsvc.go:26-100 | over every run a busy client serves the one request it submitted last, with the user, rows and names of that request and no others |
| Answers.AddColorLocks | internal/storage/collection_repo.go:141-162 | AddColor is not found if and only if the collection is not the caller's, and waits only while another client holds its lock |
| Answers.CreateCollectionLocks | internal/storage/user_repo.go:86-97 | CreateCollection is refused before it counts if and only if the account is gone, and waits only while another client holds its lock |
| Answers.ResolveAnswers | internal/storage/collection_repo.go:134-139 | deleting and listing colors go on if and only if the collection is the caller's |
| Answers.DropCheckAnswers | internal/collectionsvc/collectionsvc.go:83-90 | DeleteCollection goes on to its delete if and only if the collection is the caller's and not a default |
| Answers.SignupAnswers | internal/storage/user_repo.go:13-30 | a signup is a duplicate if and only if a committed account has the nickname, and waits only for an uncommitted one that has it |
| Answers.DropAccountLocks | internal/storage/user_repo.go:72-83 | deleting an account is refused if and only if it is gone, and waits only while another client holds its lock |
| Answers.DeleteColorRemoves | internal/storage/color_repo.go:58-71 | the one row goes and no other row of any table differs; not found if and only if it was not there |
| Answers.DeleteAllColorsEmpties | internal/storage/color_repo.go:73-80 | the collection is empty and no other row of any table differs |
| Answers.RenameWritesName | internal/storage/collection_repo.go:90-115 | the collection of the caller has the name asked for, the same owner and default mark, and no other row differs |
| Answers.DropTakesCollection | internal/storage/collection_repo.go:118-131 | the collection goes with its colors and nothing else |
| Answers.DropTakesAccount | internal/storage/user_repo.go:72-83 | the account goes with exactly its collections and their colors, and lets go of every lock |
| Nicknames.NicknamesUnique | internal/storage/user_repo.go:13-30 | after any run of concurrent signups no two accounts share a nickname, committed or about to be |
| AccountStore.CreatedMeansInserted | internal/storage/color_repo.go:14-30 | the answer is "created" exactly when the commit puts in a row that was absent, with the derived color_key and nothing else changed |
| AccountStore.InsertReturns | internal/colorsvc/colorsvc.go:58-59 | below the quota the insert behind the lock neither waits nor fails |
| AccountStore.NothingPendingElsewhere | internal/storage/collection_repo.go:140-162 | while a client holds the lock of a collection nobody else has an uncommitted row in it |
| AccountStore.ColorKeysAreDerived | internal/storage/color_repo.go:17-22 | every stored color_key is the sort key of its hex |
| AccountStore.CollectionQuotaHolds | internal/collectionsvc/collectionsvc.go:34-53 | no user ever holds more collections than the quota, the uncounted default and any uncommitted insert included |
| AccountStore.CollectionQuotaHoldsIffPositive | cmd/api/main.go:215-218 | that bound holds over all runs if and only if the configured quota is at least one |
| AccountStore.OneDefaultEach | internal/usersvc/usersvc.go:22-39 | in every reachable committed state every account has exactly one default collection |
| AccountStore.DropsNoDefault | internal/collectionsvc/collectionsvc.go:79-91 | what the unlocked check saw still holds at the delete: the collection is the caller's and not a default |
| AccountStore.CollectionInsertReturns | internal/storage/collection_repo.go:16-34 | below the quota the insert of a collection succeeds, the lock keeps the user row in place |
| AccountStore.CollectionCommits | internal/collectionsvc/collectionsvc.go:50-57 | the commit of a create adds exactly one collection, of the caller, under the name asked for, never a default |
| AccountStore.AccountCommits | internal/usersvc/usersvc.go:22-39 | a signup makes the account, under its nickname, and its default collection "Main" visible in one commit, and nothing else |
| AccountStore.StepStaysHome | internal/colorsvc/colorsvc.go:69-88 | no step of a client changes a collection, or a color in one, of another account, whatever ran since the collection was resolved |
| AccountStore.ListsOwnRows | internal/colorsvc/colorsvc.go:91-100 | a listing after an unlocked resolve shows rows of the caller's collection, or nothing when it is gone |
| AccountStore.OwnerNeverChanges | internal/storage/collection_repo.go:93-99 | owner and default mark of a collection are the same at any two instants of any run |
| AccountStore.DeletedForGood | internal/storage/collection_repo.go:118-131 | once deleted, a collection is in no later state of any run |
| AccountStore.LockHolderAdvances | internal/storage/storage.go:63-76 | a transaction that holds a lock never waits and lets go after at most three statements |
| Deadlock.WaitsAreForSomeone | docs/dbtx.md:32-48 | in every reachable state a statement that cannot run waits for a client that holds the row lock or the uncommitted insert it needs |
| Deadlock.NoDeadlock | internal/storage/user_repo.go:72-83 | no chain of waits is longer than two, account deletion with its locks taken one by one included, so no clients wait in a circle |
| Invariant.StepKeepsInv | docs/dbtx.md:32-48 | one statement of one client keeps the store invariant, for every statement of every service |
| Server.Postgres.AddColor | internal/colorsvc/colorsvc.go:26-66 | the method performs a run of the machine; each answer holds of the rows at instants of this very call: created if absent and counted below the quota, quota full if absent and counted at it, not found if the collection was not the caller's; created adds that one row, anything else changes nothing |
| Server.Postgres.DeleteColor | internal/colorsvc/colorsvc.go:69-77 | Done if and only if the collection was the caller's and the row was there; then that row went and nothing else |
| Server.Postgres.DeleteAllColors | internal/colorsvc/colorsvc.go:80-88 | Done if and only if the collection was the caller's; then it is empty and nothing else differs |
| Server.Postgres.CreateCollection | internal/collectionsvc/collectionsvc.go:27-58 | Done means exactly one new collection of the caller under that name, any other answer no change; quota full if and only if the user was counted at the quota in this very call, and the quota holds at the end |
| Server.Postgres.UpdateCollection | internal/collectionsvc/collectionsvc.go:73-77 | Done means the name is written and nothing else; not found means the collection was not the caller's |
| Server.Postgres.DeleteCollection | internal/collectionsvc/collectionsvc.go:79-91 | the unlocked check-then-delete performs a run of the machine; Done takes the collection and its colors and nothing else, never a default; every other answer changes nothing and is explained by what a statement of this call saw |
| Server.Postgres.CreateUser | internal/usersvc/usersvc.go:22-39 | account and default collection appear together in one commit, under the nickname given, or nothing does; a duplicate means an account had the nickname |
| Tokens.TokenResolves | internal/storage/token_repo.go:30-44 | after any run a hash resolves to a user exactly when it was issued to them, is unexpired, was not revoked and the account was not deleted since; and then the account is live |
| Tokens.RowsAreHistory | internal/storage/token_repo.go:13-25 | a token row is there if and only if the run issued it and has neither revoked it nor deleted its account since |
| Tokens.Reachable | migrations/000005_create_tokens.up.sql:3-6 | every token row has a live user, nicknames are unique, every id in use was given out by a signup |
| Tokens.TokenWasEarned | internal/authsvc/authsvc.go:27-59 | a hash resolves to a user only if the same client had named them and given their password before it inserted |
| Tokens.LoginReads | internal/authsvc/authsvc.go:30-53 | after any run the read of a login lets a client on to its insert if and only if some account has the normalized nickname and the password matches, and then for that account |
| Tokens.LoginIssues | internal/authsvc/authsvc.go:55-59 | after any run the insert makes a hash nobody has resolve to the account read, if it is still there, until the expiry; otherwise no token changes |
| Tokens.DeletedNeverResolves | internal/storage/user_repo.go:72-83 | after an account is deleted no hash resolves to it in any later run, whoever takes the nickname |
| Tokens.Auth.Login | internal/authsvc/authsvc.go:27-59 | invalid credentials if and only if no account has the normalized nickname and that password; a token answered is stored, for such an account; user-not-found only if that account died in between, hash taken only if the hash is stored |
| Tokens.Auth.Revoke | internal/authsvc/authsvc.go:62-64 | the presented hash resolves to nobody, everything else stays |
| Tokens.Auth.Delete | internal/storage/user_repo.go:72-83 | the account goes with exactly its own tokens; a missing account changes nothing |
| Listing.FirstPageAccepted | internal/handlers/color_handler.go:167-198 | without a cursor a query is accepted if and only if its limit is left out or in 1 to 100 and its sort and order are left out or known by name; else the error names the first of these that is bad |
| Listing.ListingInWords | internal/storage/color_sort.go:74-119 | an unchanging collection comes as every color once, in pages of the limit asked for or fifty, newest first unless the text asks for hex, color or asc, ties alphabetical by hex |
| Listing.PagesInAskedOrder | internal/storage/color_sort.go:74-119 | with any adds and deletes between pages all colors together are in the order that the sort and order text name |
| Listing.PageInWords | internal/storage/color_repo.go:83-131 | one request, with any cursor: the first colors behind the cursor in the order of the text, as many as asked for; a row left out comes after them all, and then there is a cursor |
| Paging.TraversalIsMonotone | internal/storage/color_repo.go:83-131 | with any adds and deletes between pages, colors come in strictly increasing listing order over all pages; under the hex and color sorts no hex comes twice |
| Paging.TraversalIsComplete | internal/storage/color_repo.go:83-131 | a row present at every request of a finished traversal is returned exactly once |
| Paging.TraversalOfUnchanged | internal/handlers/color_handler.go:107-121 | on an unchanging collection the pages are the fully sorted listing cut every limit rows, as many as the count demands, one when it is empty, for every sort, order and limit |
| HexTwice.HexOnceUnlessByTime | internal/storage/color_sort.go:74-119 | over all snapshots, for every query accepted, no traversal returns a hex twice if and only if its text asks for the sort hex or color |
| HexTwice.HexOnceUnlessOldestFirst | internal/storage/color_sort.go:76-84 | over all snapshots in which a color saved again is never older, no traversal returns a hex twice if and only if the text does not ask for created_at, named or left out, in the order asc |
| Paging.HandlerReturnsPage | internal/handlers/color_handler.go:86-124 | a request returns the page of its keyset, and a cursor exactly when more is left, which asks for the page after it |
| Paging.FollowIsByKey | internal/storage/color_sort.go:101-114 | following cursor texts is following boundary keys, also where the key is recomputed from the hex |
| Paging.RestOfListing | internal/storage/color_sort.go:74-119 | the listing after the boundary of a page is the rest of the listing |
| Paging.OrderBySorts | internal/storage/color_repo.go:113-118 | the query result is sorted by the listing order and holds exactly the rows |
| Paging.SortedUnique | internal/storage/color_sort.go:82-113 | the listing order leaves one order for a set of rows |
| Paging.ParamsAreSound | internal/handlers/color_handler.go:167-198 | parameters that pass have a limit in 1 to 100 and a known sort and order, need no default of the storage layer, and carry a boundary exactly when the query has a cursor |
| Paging.CursorBindsListing | internal/handlers/cursor.go:63-68 | a minted cursor passes under exactly the sort and order it was minted for, also where those are left to their defaults |
| Paging.FillParams | internal/handlers/color_handler.go:167-198 | filling the parameters field by field gives the defaults, the checked values and the decoded cursor, or the first error |
| Paging.ServeColors | internal/handlers/color_handler.go:95-123 | the loop, with each time in UTC, the limit and the cursor minted after it give the response the traversal theorems are about |
| Timestamp.UTCKeepsInstant | internal/handlers/color_handler.go:111-116 | the wall clock in UTC, carried over day, month and year, is of the same instant |
| Timestamp.ClockHands | internal/handlers/cursor.go:30-32 | a nanosecond, second, minute, hour and zone offset each move an instant by what they are worth |
| Timestamp.NextDayIsLater | internal/handlers/cursor.go:30-32 | the next calendar day, over months, years and leap days, is a day later |
| ColorSort.KeyTrichotomy | internal/storage/color_sort.go:88-113 | of two different keys exactly one comes first |
| Cursor.CursorRoundTrip | internal/handlers/cursor.go:26-100 | a cursor decodes under exactly the sort and order it was made for, to the same hex, and to the same instant if and only if the zone is a whole number of minutes |
| Cursor.FieldsRoundTrip | internal/handlers/cursor.go:40-58 | the fields of a cursor survive joining, base64url and splitting |
| Cursor.CursorText | internal/handlers/cursor.go:40-46 | a cursor decodes to sort, order, under created_at the printed time, and hex, with bars between them |
| Base64Url.RoundTrip | internal/handlers/cursor.go:45-56 | decoding unpadded base64url undoes encoding |
| Timestamp.ParseOfFormat | internal/handlers/cursor.go:78-81 | reading a printed RFC 3339 time gives its civil fields back, and its instant if and only if the offset has no seconds |
| Text.SplitJoin | internal/handlers/cursor.go:45-58 | splitting undoes joining if and only if no part holds the separator |
| Text.LessIsAlphabetical | internal/storage/color_sort.go:88-98 | the order of hexes is decided by their first difference |
| Hexes.NewHexFixes | internal/color/hex.go:57-65 | normalizing a normalized hex changes nothing |
| Hexes.NewHexAccepts | internal/color/hex.go:57-65 | a text is accepted as a hex if and only if it is its six digits in either case, with or without a '#', and white space around it |
| Export.ExportCollections | internal/storage/export_repo.go:42-87 | the row loop computes the fold |
| Export.FoldGroups | internal/storage/export_repo.go:57-81 | flattening the fold gives the rows back, groups and colors in order |
| Export.ExportIsTheAccount | internal/storage/export_repo.go:28-34 | every collection of the account exactly once, oldest first and by id, empty ones kept, each with exactly its colors, oldest first and alphabetically |
| Hsl.RgbRoundTrip | internal/color/hsl.go:12-28 | rgb to hsl to rgb is the identity on all channels in [0, 1] |
| Hsl.HslRoundTrip | internal/color/hsl.go:70-94 | hsl to rgb to hsl is the identity for hue in [0, 360), saturation in (0, 1], lightness in (0, 1) |
| Hsl.SaturationInRange | internal/color/hsl.go:23-25 | over exact channels the clamp of the saturation never acts |
| Hsl.HsvTellsApart | internal/color/hsl.go:37-47 | two colors with the same HSV reading are the same, and its hue is the one HSL reads |
| Hsl.HsvParts | internal/color/hsl.go:37-47 | the value is the highest channel, value times saturation the span, and saturation 0 exactly for grays |
| Hsl.RotateKeepsEnds | internal/color/derive.go:46-58 | a rotation by any real angle keeps the highest and the lowest channel, so the clamp of quantize never acts |
| Hsl.RotateComposes | internal/color/hsl.go:71-75 | rotations add up, over negative angles and angles of more than a turn |
| Hsl.ThirdOfATurn | internal/color/hsl.go:77-93 | 120 degrees moves every channel one place on |
| Hsl.HalfATurn | internal/color/hsl.go:77-93 | 180 degrees mirrors every channel between the highest and the lowest |
| Derive.HexToHslToHex | internal/color/hsl.go:69-94 | every normalized hex comes back unchanged through HSL |
| Derive.HslRotationKeepsEnds | internal/color/derive.go:46-58 | over any angle the result is a normalized hex with the same highest and lowest byte |
| Derive.HslTriad | internal/color/color.go:121-137 | where the neutral gate passes, the triad is the two cyclic moves of the three bytes, with no rounding |
| Derive.HslHalf | internal/color/derive.go:46-58 | where the neutral gate passes, the complement mirrors every byte between the lowest and the highest, with no rounding |
| Derive.HslWholeTurns | internal/color/derive.go:46-58 | whole turns give the hex back |
| Derive.ByteThroughLinear | internal/color/oklab.go:68-82 | every byte channel comes back exactly from becoming linear, though the two halves of the transfer function leave a gap |
| Wheel.TurnedHueTurns | internal/color/derive.go:34-37 | at its own lightness and chroma in the direction turned to, a color is the color with its point (a, b) turned by the angle, counterclockwise |
| Wheel.QuarterTurns | internal/color/derive.go:34-37 | 0 and 360 degrees keep (a, b), 90 takes it to (-b, a), 180 to (-a, -b), 270 to (b, -a) |
| Wheel.TurnsCompose | internal/color/derive.go:34-37 | turning twice is turning by the sum of the angles |
| Wheel.TurnKeepsChroma | internal/color/derive.go:28-37 | a turn keeps the chroma |
| Wheel.OwnCoordinates | internal/color/derive.go:125-129 | a color is at its own lightness, chroma and direction |
| OklabInverse.HexThroughLinear | internal/color/oklab.go:45-82 | every hex survives becoming linear and back |
| OklabInverse.LinearComesBack | internal/color/oklab.go:14-43 | through OkLab and back linear channels move by at most 3 millionths |
| OklabInverse.ByteSurvives | internal/color/oklab.go:64-82 | a linear channel within 3 millionths of a byte's prints that byte |
| OklabInverse.HexThroughOklab | internal/color/oklab.go:14-48 | every hex comes back through OkLab, although the rounded matrices are no exact inverses |
| OklabInverse.PaintsItself | internal/color/derive.go:27-37 | painting a hex at its own lightness, chroma and hue gives the hex |
| Derive.TurnOkLCh | internal/color/derive.go:22-38 | a hex that is not neutral turns into a print, each byte within half a step of its encoded channel, of the color turned by the angle if sRGB can show that, else of the one the fit settles on, all three linear channels within a billionth of [0, 1] where chroma is only lost upwards |
| Derive.Rotations | internal/color/color.go:130-137 | the slice holds for every angle what the rotation on the chosen wheel promises |
| Derive.RotateOkLCh | internal/color/derive.go:22-38 | a neutral and a malformed hex are returned, any other is painted where its own lightness and chroma fit along the direction in which they are the color turned |
| Derive.NeutralMeans | internal/color/derive.go:28-32 | the neutral gate is a distance of 0.02 from the gray axis |
| Derive.OkLChRotationIsShown | internal/color/derive.go:34-37 | a color sRGB can show at the hue turned to is not moved; where chroma is only lost upwards every rotation ends with all three linear channels within a billionth of [0, 1] and at most the chroma of the color |
| Derive.OkLChRotationKeepsChroma | internal/color/gamut.go:36-51 | the rotated color has the chroma of the color unless no sampled lightness holds it |
| Derive.Ramp | internal/color/derive.go:67-85 | seven prints of the color's own hue at lightness 0.3, 0.4 and so on to 0.9, each with its own chroma or the most that lightness holds, in sRGB where chroma is only lost upwards; or a malformed hex repeated |
| Derive.RampInGamut | internal/color/derive.go:80-83 | the linear channels of every ramp step are within a billionth of [0, 1] where chroma is only lost upwards at its lightness |
| Derive.Tones | internal/color/derive.go:101-123 | seven prints of the color's own hue and lightness with no, one sixth and so on to all of the most chroma the lightness holds, in sRGB where chroma is only lost upwards; or a neutral or malformed hex repeated |
| Derive.TonesInGamut | internal/color/derive.go:116-121 | the linear channels of every tone are within a billionth of [0, 1] where chroma is only lost upwards at the lightness |
| Derive.TonesAreShown | internal/color/derive.go:90-97 | the steps start at no chroma, end at the most the lightness holds, and all can be shown |
| Derive.FirstToneIsGray | internal/color/derive.go:90-93 | the first tone prints as a gray, three equal bytes |
| Gamut.MaxChromaAt | internal/color/gamut.go:74-85 | the loop returns the specified bisection, a chroma that can be shown |
| Gamut.MaxChromaIsShown | internal/color/gamut.go:72-85 | the result can be shown, and exactly 2^-21 above it is a chroma that cannot, or the ceiling |
| Gamut.MaxChromaIsMaximal | internal/color/gamut.go:72-85 | where chroma is only lost upwards the result is within 2^-21 of the maximum and everything below it is shown |
| Gamut.Sample | internal/color/gamut.go:36-51 | one pass over the grid finds the first sample with the most chroma and the first nearest sample that holds the chroma asked for |
| Gamut.GridCovers | internal/color/gamut.go:43-44 | the samples run from 0 to 1 and every lightness is within half a step of one |
| Gamut.FitToSRGB | internal/color/gamut.go:29-70 | what can be shown does not move; otherwise the color is placed at the peak or walked from the nearest sample |
| Gamut.WalkSpec | internal/color/gamut.go:58-69 | the walk stays between the sample and the request, keeps the chroma, and ends with the gap cut by exactly 2^20 before an end that lost it |
| Gamut.FitGivesWay | internal/color/gamut.go:53-56 | when no sample holds the chroma the result can be shown and has the most chroma of all samples, at the darkest that has it |
| Gamut.FitKeepsChroma | internal/color/gamut.go:46-69 | when some sample holds it the chroma is kept exactly and the lightness stops next to the edge, coming from the nearest of them, the darker of two |
| Gamut.RequestDoesNotHold | internal/color/gamut.go:58-59 | where the request loses chroma only upwards it is outside the edge the walk looks for |
| Gamut.FitIsShown | internal/color/gamut.go:27-70 | where chroma is only lost upwards the fit is in the gamut for every request |
| Gamut.FitInSrgb | internal/color/gamut.go:27-70 | a color whose linear channels sRGB can show does not move; where chroma is only lost upwards every fit has all three channels within a billionth of [0, 1] |
| Gamut.GraysAreShown | internal/color/gamut.go:72-73 | for any hue chroma zero is in the gamut at every lightness in [0, 1] |
| Oklab.GrayIsCube | internal/color/oklab.go:31-43 | chroma zero is exactly (L^3, L^3, L^3), in the gamut for L in [0, 1] |
| Oklab.InGamutMeans | internal/color/oklab.go:31-43 | the test accepts a point if and only if all three of its linear channels are within a billionth of [0, 1] |
| Oklab.DecodesBySrgb | internal/color/oklab.go:68-74 | a channel becomes linear as the sRGB standard has it: linear up to 0.04045, then the power 12/5 |
| Oklab.EncodesBySrgb | internal/color/oklab.go:76-82 | and back: linear up to 0.0031308, then the power 5/12 |
| Oklab.HexLightnessRange | internal/color/oklab.go:14-26 | the lightness of every hex is in [0, 1) |
| Oklab.FillHex | internal/color/oklab.go:51-62 | the byte loop prints the specified hex |
| Oklab.HexReads | internal/color/oklab.go:51-66 | the printed hex is normalized and its bytes read back as the quantized channels |
| Oklab.BytesToHex | internal/color/hex.go:32-50 | printing the channels read from a hex gives the hex |
| SortKey.KeyOrder | internal/color/sortkey.go:28-61 | keys are ordered exactly as the triples (hue group, rounded lightness, capped chroma) |
| SortKey.GroupMeans | internal/color/sortkey.go:44-56 | group 0 is a chroma below 0.02; group n is a direction in the n-th 30 degrees from 20 on, at the color's chroma |
| SortKey.MarksMean | internal/color/sortkey.go:58-60 | lightness and chroma are read from the key in rounded thousandths, the chroma at most 999 |
| Wheel.ChromaSquared | internal/color/sortkey.go:42 | the chroma is the distance of (a, b) from the gray axis |
| SortKey.DarkerFirst | internal/color/sortkey.go:25-27 | within a group the darker of two colors a thousandth apart comes first |
| SortKey.MalformedFirst | internal/color/sortkey.go:29-31 | what is no hex has the key 0, and nothing sorts before it |
| SortKey.KeyHoldsParts | internal/color/sortkey.go:58-60 | the key fits an int32 and the triple is read back by division and remainder |
| SortKey.GroupIsTwelfth | internal/color/sortkey.go:47-56 | the group is 1 to 12 and is the twelfth of a turn the hue is in behind 20 degrees |
| SortKey.NeutralsFirst | internal/color/sortkey.go:25-27 | every neutral sorts before every color that has a hue |
| Contrast.RatioRange | internal/color/contrast.go:69-73 | the ratio is in [1, 21], symmetric, and 1 exactly for equal luminances |
| Contrast.LuminanceAdds | internal/color/contrast.go:61-67 | luminance adds up over the channels, and of a gray it is the linear value of its byte |
| Contrast.ChannelWeighs | internal/color/contrast.go:61-67 | a channel alone is 0.2126, 0.7152 or 0.0722 of the gray of its byte |
| Contrast.LuminanceOfPrimaries | internal/color/contrast.go:61-67 | black is 0, white 1, red 0.2126, green 0.7152, blue 0.0722 |
| Contrast.WhiteTimesBlack | internal/color/contrast.go:46-51 | the ratios against white and black multiply to 21, and the one against black is the luminance plus 0.05 over 0.05 |
| Contrast.CutKeepsLevel | internal/color/contrast.go:53-86 | the level is AAA from 7 on, AA from 4.5, AA for large text from 3, of the exact ratio, although it is read off a cut to hundredths |
| Contrast.HexAlwaysReadable | internal/color/contrast.go:46-67 | the luminance of every hex is in [0, 1] and it reaches AA against black or white |
| Strips.QuietPageIsRight | web/app.js:1123-1166 | after any run, an open page with no request of its generation out or failed shows on every strip pinned last the bands of the color selected last on the wheel chosen last: a harmony is the color itself and what the server answers for that wheel, a scale what it answers without one |
| Strips.FollowsUser | web/app.js:1041-1056 | after any run selection, wheel, section and pins are those of the last event about each |
| Strips.PinsInOrder | web/app.js:1041-1046 | the pins are in the order of the page, whatever order they were asked for |
| Strips.RefreshAsks | web/app.js:1123-1142 | a refresh asks the server for exactly the pinned strips not cached for the selection and wheel of the moment, and for nothing without a selection |
| Strips.CachedShowsAtOnce | web/app.js:1123-1142 | a strip cached for the selection and wheel is shown by the refresh itself |
| Strips.CacheIsTrue | web/app.js:1029-1032 | after any run a cache entry is the strip of its own name, hex and wheel |
| Strips.AddsWhatIsShown | web/app.js:1204-1213 | after any run, on an open page, the button adds something else than is shown if and only if the strip is empty, its current request is out and nonempty bands are cached, which are then of another selection or wheel |
| Strips.QuietPageAddsRight | web/app.js:1204-1213 | after any run, on a quiet open page the button adds exactly the strip of the color selected last on the wheel chosen last, nothing without one |
| Strips.AddsUnseenBands | web/app.js:1204-1213 | a run after which an empty strip adds the bands of the color selected before |
| Strips.StepKeepsInv | web/app.js:1123-1166 | every handler and every late response keeps: cache true, strips of the page cached, each pinned strip right, on its way or failed and an empty cached one loading unless stale, and stale only while closed or about to be told |
| Strips.Page.ShowStrips | web/app.js:1123-1142 | the loop over the pins performs the specified refresh |
| Strips.Page.Answered | web/app.js:1150-1157 | a landed response performs the machine's step |
| Strips.Page.Rejected | web/app.js:1158-1165 | a failed response performs the machine's step |
| Strips.Page.ApplyPinned | web/app.js:1045-1052 | pinning keeps the table order, rebuilds the blocks and refreshes |
| Strips.Page.TogglePin | web/app.js:1054-1056 | the toggled name flips, every other pin stays |
| Strips.Page.OnToggle | web/app.js:2464-2468 | an opened section that missed something refreshes |

## Left out

- PostgreSQL, pgx and SQL text: a statement is an atomic step, a constraint or lock a guard. A blocked statement is tried again rather than queued. Generated ids are distinct, as bigserial and uuid promise.
- A cascade takes its row locks one by one and its rows go together when it commits; locks on single color rows are not modelled, their holders being single statements.
- Server.Postgres.Others: interference is a method with an empty body whose callers may rely on its contract only, so every change the contract admits is covered.
- ErrNestedTx (internal/storage/storage.go:64-68): no modelled service nests transactions.
- created_at, icons and accents of store rows; listing order and export have their own modules, over rows given as sequences.
- The store and the tokens are two machines; account deletion appears in both.
- ExportUser's two reads, which the code marks as an open question (internal/usersvc/usersvc.go:51-52).
- Passwords, SHA-256 and token randomness: hashes are opaque keys and the password check is a parameter. A repeated hash is refused by the primary key.
- Text collation: hexes are compared by character, which is what any collation does on digits and a to f.
- Paging.TraversalIsMonotone: assumes, like HexTwice and as the cursor theorem demands, that under created_at the zone of a stored time is a whole number of minutes.
- strvalid: hex normalization follows the accepted pattern (api/api.yaml:771-777).
- time.Parse accepts some texts the model refuses, such as a comma before the fraction; a cursor the server made is never one of them.
- float64 rounding: the color modules use exact reals and claim nothing about floats.
- Unconditional convexity of sRGB at a fixed hue: that chroma is only lost upwards is a hypothesis (`Gamut.DownClosed`), as internal/color/gamut.go:16-18 warns.
- Whether a color of a hex passes the gamut test at its own coordinates: the way back may miss [0, 1] by more than the test's 1e-9, which no printed byte shows.
- Gamut.MaxChromaAt and Gamut.FitToSRGB take the test of what can be shown as a parameter; `Derive` passes the one of oklabToLinear.
- Derive.RotateOkLCh takes that test and colorAt as parameters and Derive.TurnOkLCh puts them in; Derive.Ramp and Derive.Tones pass them to their loops.
- Deleting an account is a program of the machine (`Answers.DropAccountLocks`, `Answers.DropTakesAccount`, `Deadlock`); `Server` has no method for it.
- The server's answer to a strip request is a function of name, hex and wheel; the page's DOM is a map from pinned names to the bands drawn.
- HTTP, JSON, middleware, configuration parsing, static tables and the rest of the page.
