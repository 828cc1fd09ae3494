# our-big-league: a verified model of the league statistics and upload checks

This project models the logic at the heart of the fantasy-league site *our-big-league*.
The site keeps one row per season: the champion, an optional co-champion, an optional
runner-up and the year. From those rows it computes per-team title counts, appearances,
last-win years, "most titles", "longest drought", "never won" lists and tiers of teams
grouped by titles. The computation exists in three independent copies, modelled here
one by one, as written:

- `SeasonService` (src/services/seasonService.js) keys on team name and counts active
  teams only. It also attaches the draft years to each draft location.
- `ChampionshipData` (src/composables/useChampionshipData.js) reads champion strings,
  splits co-champions on `&`, maps nine historical names to current ones and skips four
  defunct teams. Its tiers loop, unlike its stats loop, drops a whole season whose sole
  champion is defunct, runner-up included.
- `TeamService` (src/services/teamService.js) is keyed on team ids. It credits every team
  with its own record and with the full record of each predecessor named in the lineage
  table, so a defunct team with two successors counts in full for both.

The shared pieces sit in their own modules. `Summary` holds the maximum, drought and
no-title computations, and `Tiering` the grouping into tiers. `Sorting` holds the stable
sort that `Array.prototype.sort` performs. `Common` holds the dictionary that stands for
a JavaScript object and keeps its keys in insertion order. `Text` holds split, trim,
lower-case and integer formatting.

Titles are counted in half-titles: a title is 2 and a shared title is 1, so the source's
0.5 credits stay exact integers. A tier count of 1.5 titles is therefore 3 here.

Smaller cores sit alongside:

- `DraftPositionData` models the draft-position computeds: the sorted distinct years, the
  distinct teams, the team-by-year grid and the per-team pick counts.
- `Presign`, `DeletePhoto` and `GetUrls` model the upload handlers under api/uploads/ as
  ordered guard chains. `UploadAuth` holds what they share. The user lookup, the
  approved-owner lookup, the photo lookup, the random UUID and the S3 signer and delete
  are inputs.
- `PhotoData` models the photo gallery of a season as a class whose fields are the
  composable's refs. Its methods are `fetchPhotos`, `uploadPhoto` (pre-checks, progress
  steps, reset in `finally`) and `removePhoto`. It also models the `photosWithUrls`
  mapping.
- `Router` models the route table and the `beforeEach` navigation guard.

Each loop of the source is a method whose loop invariant ties its state to a fold
function over the prefix visited. The meaning of each fold is then proved per team name
or id, as closed-form sums.

## Model

| member | source | states |
|---|---|---|
| `SeasonService.CountSeasons` | src/services/seasonService.js:163-192 | The counting loop leaves `champCounts`, `appearances` and `lastWinYear` equal to the fold of the per-season step over all seasons. |
| `SeasonService.HalvesIn` | src/services/seasonService.js:169-185 | One season credits a name 0 to 2 half-titles. The credit is positive exactly when the name is the active champion or the active co-champion. A champion gets a half title whenever a co-champion row is present, active or not. |
| `SeasonService.ChampClosedForm` | src/services/seasonService.js:169-185 | `champCounts[name]` is the sum of the half-titles every season credits to `name`. The name is a key exactly when it won a season as an active team. |
| `SeasonService.AppsClosedForm` | src/services/seasonService.js:169-191 | `appearances[name]` counts the active roles `name` held (champion, co-champion, runner-up). The name is a key exactly when it held one, so inactive and absent teams leave no key. |
| `SeasonService.LastWin` | src/services/seasonService.js:177-184 | The latest active win year is non-negative and at least the year of every season `name` won. |
| `SeasonService.LastWinClosedForm` | src/services/seasonService.js:177-184 | `lastWinYear[name]` is recorded exactly for winners and equals the maximum year of the seasons they won. |
| `SeasonService.LastWinAttained` | src/services/seasonService.js:177-184 | The recorded last-win year is the year of a season the team actually won, unless it is the starting 0. |
| `SeasonService.HalvesBelowAppearances` | src/services/seasonService.js:169-190 | A team's titles never exceed its appearances. |
| `SeasonService.TotalHalvesPositive` | src/services/seasonService.js:169-185 | A team's title total is non-negative, and it is positive exactly when the team won some season. |
| `SeasonService.TallyFacts` | src/services/seasonService.js:163-192 | Every titled team is also a key of `appearances`, titles are positive, and `champCounts` and `lastWinYear` share their keys. |
| `SeasonService.GetChampionshipStats` | src/services/seasonService.js:158-229 | The returned statistics are the summary of the counted tallies, with `totalSeasons` the number of season rows. |
| `SeasonService.WinnersAreWon` | src/services/seasonService.js:169-185 | A name is in the set of active champion and co-champion names exactly when it won a season. |
| `SeasonService.UniqueChampionsSpec` | src/services/seasonService.js:195 | `uniqueChampions` is the number of distinct names that won as active teams. |
| `SeasonService.LeadersSpec` | src/services/seasonService.js:198-201 | `mostTitles.count` is the maximum title total. It bounds every team's titles. It is 0 exactly when no team has won, and otherwise some winner attains it. The teams listed are exactly the winners at that count. |
| `SeasonService.TitlelessSpec` | src/services/seasonService.js:211-212 | `noTitles.teams` lists exactly the active participants that never won, each once, and `count` is their number. |
| `SeasonService.DroughtSpec` | src/services/seasonService.js:204-208 | `longestDrought` is null exactly when no win lies strictly before the current year. Otherwise it names a winner whose positive gap to its last win is the largest. |
| `SeasonService.GetChampionshipTiers` | src/services/seasonService.js:262-322 | The tiers are the grouping of the counted tallies (the same loop as the statistics, without last wins). |
| `SeasonService.SeasonTiersSpec` | src/services/seasonService.js:294-320 | The tiers partition the active participants: each appears in exactly one tier, that of its title total, with its appearances. Counts strictly ascend, no tier is empty, and teams in a tier do not increase in appearances. |
| `SeasonService.SeasonTiersMembers` | src/services/seasonService.js:294-312 | Every tier row is an active participant, in the tier of its title total, with its appearance count. |
| `SeasonService.GroupRowMeaning` | src/services/seasonService.js:294-312 | A row grouped under a count is an active participant whose title total is that count. |
| `SeasonService.SeasonTiersCover` | src/services/seasonService.js:294-312 | Every active participant has a row in some tier. |
| `SeasonService.TiersMemberAppeared` | src/services/seasonService.js:294-312 | A name that is a key of either counter is an active participant. |
| `SeasonService.YearsAt` | src/services/seasonService.js:115-117 | The years attached to a location are exactly the years of the seasons drafted there, and there are at most as many as seasons. |
| `SeasonService.DraftLocationsSpec` | src/services/seasonService.js:112-124 | Each listed location is an input location carrying the years drafted there, at least one. Every input location with a season is listed. |
| `ChampionshipData.NormalizeSpec` | src/composables/useChampionshipData.js:25-27 | An alias maps to its entry and any other name to itself. The result is never an alias, so normalising is idempotent. |
| `ChampionshipData.NormalizeTable` | src/composables/useChampionshipData.js:4-14 | The aliases map onto Stout, Birrrdy and Blank and onto nothing else. |
| `ChampionshipData.StoutAliases` | src/composables/useChampionshipData.js:5-8 | The four historical names of Stout normalise to Stout. |
| `ChampionshipData.BirrrdyAndBlankAliases` | src/composables/useChampionshipData.js:9-13 | The three historical names of Birrrdy and the two of Blank normalise to their current names. |
| `ChampionshipData.DefunctIgnoresNormalize` | src/composables/useChampionshipData.js:17-32 | Normalising never changes whether a name is defunct, and a defunct name is never an alias. So testing the raw trimmed name, as the source does, agrees with testing the normalised one. |
| `ChampionshipData.CreditChampion` | src/composables/useChampionshipData.js:65-79 | A shared champion credits its `&` pieces one by one. A defunct sole champion changes nothing. Any other sole champion gains a whole title and an appearance under its normalised name. |
| `ChampionshipData.CreditPartsClosedForm` | src/composables/useChampionshipData.js:65-72 | The `&` loop gives each trimmed, non-defunct piece half a title and one appearance under its normalised name, and touches no other key. |
| `ChampionshipData.StatsClosedForm` | src/composables/useChampionshipData.js:63-88 | The stats counters hold, per name, the sums of the per-season title and appearance credits. A runner-up that is empty, `------` or defunct adds nothing. A name is a key exactly when its sum is positive. |
| `ChampionshipData.HalvesWithinAppearances` | src/composables/useChampionshipData.js:63-88 | Every title credit comes with an appearance, so titles never exceed appearances. |
| `ChampionshipData.CreditLastWin` | src/composables/useChampionshipData.js:101-115 | The last-win credit of one season is the fold step over its pieces, or over the sole champion. |
| `ChampionshipData.LastWinsClosedForm` | src/composables/useChampionshipData.js:100-115 | `lastWinYear[name]` is the latest year the name was credited as champion. The name is a key exactly when it has a title. |
| `ChampionshipData.Stats` | src/composables/useChampionshipData.js:56-139 | Before the data loads the result is null. Afterwards it is the summary of the counted stats and last wins, with `totalSeasons` the number of seasons. |
| `ChampionshipData.ChampionsArePositive` | src/composables/useChampionshipData.js:63-79 | A name is among the credited champions exactly when its title total is positive. |
| `ChampionshipData.UniqueChampionsSpec` | src/composables/useChampionshipData.js:91 | `uniqueChampions` is the number of distinct credited champion names. |
| `ChampionshipData.LeadersSpec` | src/composables/useChampionshipData.js:94-97 | With no credited champion the count is `-Infinity` (`None`) and no team is listed. Otherwise the count is positive. It bounds every title total, some name attains it, and the teams listed are exactly those at it. |
| `ChampionshipData.TitlelessSpec` | src/composables/useChampionshipData.js:124 | `noTitles` lists exactly the names with an appearance and no title, each once, and counts them. |
| `ChampionshipData.DroughtSpec` | src/composables/useChampionshipData.js:117-133 | `longestDrought` is null exactly when no credited last win lies strictly before the current year. Otherwise it is a champion whose gap is the largest. |
| `ChampionshipData.ChampionshipTiers` | src/composables/useChampionshipData.js:142-200 | Before the data loads the tiers are empty. Afterwards they are the grouping of the tiers loop's counters. |
| `ChampionshipData.TiersCountsFiltered` | src/composables/useChampionshipData.js:148-170 | The tiers loop counts exactly like the stats loop run on only the seasons whose champion is shared or not defunct. |
| `ChampionshipData.DefunctSoleSkipped` | src/composables/useChampionshipData.js:158-169 | A season whose sole champion is defunct leaves the tier counters unchanged, runner-up included. The stats loop still credits its runner-up. |
| `ChampionshipData.ChampTiersSpec` | src/composables/useChampionshipData.js:173-199 | Tier counts ascend and tiers are non-empty and sorted by appearances. Each row is a name credited in a counted season, in the tier of its total over those seasons. Every such name has exactly one row. |
| `TeamService.BuildPredecessorMap` | src/services/teamService.js:67-74 | The loop over lineage rows builds the predecessor map fold. |
| `TeamService.PredecessorMapSpec` | src/services/teamService.js:67-74 | The list kept for a successor holds each predecessor as many times as rows link the two. A successor has a list exactly when some row names it. |
| `TeamService.PredecessorListed` | src/services/teamService.js:69-74 | A predecessor is in a successor's list exactly when a lineage row links them. |
| `TeamService.TeamRecord` | src/services/teamService.js:77-116 | The nested loops over seasons and counted ids leave the accumulators equal to the season-by-season fold. The years are returned sorted ascending and the team row is kept. |
| `TeamService.GetTeamsWithStats` | src/services/teamService.js:43-119 | The first failing query, in the order teams, seasons, lineage, is returned as the error. A null lineage means no predecessors. Otherwise the result has one record per team, in input order. |
| `TeamService.IdsFoldShift` | src/services/teamService.js:86-107 | The inner loop over ids adds the same credits whatever it starts from. |
| `TeamService.LineageSnoc` | src/services/teamService.js:85-108 | Adding one season to the per-id totals adds that season's inner loop. |
| `TeamService.SeasonsFoldIsLineage` | src/services/teamService.js:85-108 | Visiting seasons, then ids within each season, gives the same totals as summing each id's own record. Credit is never split between ids. |
| `TeamService.LineageEmpty` | src/services/teamService.js:78-80 | With no seasons every total is zero. |
| `TeamService.OwnConsistent` | src/services/teamService.js:86-106 | For a single id, at most one role is credited per season. A title credit is at most one title and comes with one appearance and one year. |
| `TeamService.LineageConsistent` | src/services/teamService.js:85-108 | The same agreement holds for the totals over all counted ids. |
| `TeamService.OwnYears` | src/services/teamService.js:98-102 | An id collects exactly the years of the seasons in which it is champion or co-champion, one per such season. |
| `TeamService.LineageIncludes` | src/services/teamService.js:83-108 | Every counted id contributes its whole own record: counters and years. |
| `TeamService.LineageNonNegative` | src/services/teamService.js:85-108 | The totals are never negative. |
| `TeamService.RecordSpec` | src/services/teamService.js:110-115 | A record keeps the team row. Its totals are the sums of the own records of the team and of its predecessors, and its years are those same years sorted ascending. It has one year per title credit, and titles never exceed appearances. |
| `TeamService.FullCredit` | src/services/teamService.js:83 | A predecessor's whole record counts toward every successor that names it, with no splitting. |
| `TeamService.NoPredecessors` | src/services/teamService.js:83 | A team that no lineage row names as a successor is credited with exactly its own seasons. |
| `DraftPositionData.SeasonYears` | src/composables/useDraftPositionData.js:33 | The year list holds exactly the years of the rows that have a season. |
| `DraftPositionData.YearsSpec` | src/composables/useDraftPositionData.js:32-35 | `years` is strictly ascending, hence free of duplicates, and holds exactly the non-zero season years of the rows. |
| `DraftPositionData.DistinctTeams` | src/composables/useDraftPositionData.js:38-45 | The loop builds the team map fold and returns its values in insertion order. |
| `DraftPositionData.TeamMapSpec` | src/composables/useDraftPositionData.js:39-44 | The map has an entry exactly for each team id that occurs in a row. The entry is the team object of the first row with that id. |
| `DraftPositionData.TeamsSpec` | src/composables/useDraftPositionData.js:38-46 | `teams` lists one team per distinct id, each the first occurrence. Every team of a row is listed. |
| `DraftPositionData.PositionGrid` | src/composables/useDraftPositionData.js:49-59 | The loop builds the grid fold. |
| `DraftPositionData.GridCell` | src/composables/useDraftPositionData.js:51-57 | A cell is filled exactly when a row with both a team and a season names that team and year. It holds the position of the last such row. |
| `DraftPositionData.GridRows` | src/composables/useDraftPositionData.js:52-54 | A team has a grid row exactly when one of its rows has a season. Rows without a team or a season are skipped. |
| `DraftPositionData.TeamPositions` | src/composables/useDraftPositionData.js:66-68 | A team's position list is empty exactly when no row carries that team. Rows without a season still count. |
| `DraftPositionData.TeamStats` | src/composables/useDraftPositionData.js:62-86 | The loop pushes one record per team that has rows, in team order. Teams without rows are skipped. |
| `DraftPositionData.PickStatsBounds` | src/composables/useDraftPositionData.js:73-83 | In every record, first picks are at most top-5 picks, top-5 picks at most total drafts, first plus last picks at most total drafts, and total drafts at least 1. |
| `DraftPositionData.FirstAndLast` | src/composables/useDraftPositionData.js:73-74 | A pick cannot be both first and last, so first and last picks together never exceed the picks. |
| `DraftPositionData.PickStatsPresent` | src/composables/useDraftPositionData.js:66-70 | A team with a row gets a record for itself with at least one draft. |
| `DraftPositionData.StatsCoverTeams` | src/composables/useDraftPositionData.js:65-85 | When every team has a row, each gets exactly one record, in team order, with at least one draft. |
| `DraftPositionData.TeamStatsSpec` | src/composables/useDraftPositionData.js:38-88 | Chaining `teams` into `teamStats` gives exactly one record per distinct team id of the rows. |
| `UploadAuth.Token` | api/uploads/presign.js:38 | The token taken from a `Bearer ` header contains no space. |
| `UploadAuth.BearerToken` | api/uploads/presign.js:33-38 | A header `Bearer <t>` passes the header test, and its token is `t`. |
| `Presign.Extension` | api/uploads/presign.js:26 | The extension is lower-cased and contains no `.`: it is what follows the last dot, or the whole name when there is none. |
| `Presign.Rejections` | api/uploads/presign.js:8-36 | Each request check rejects exactly when all earlier ones passed and its own failed, in the order method (405), fields (400), type (400), extension (400), header (401). |
| `Presign.RejectedEarly` | api/uploads/presign.js:8-36 | A request failing a check gets that check's rejection whatever the lookups answer, with status 400, 401 or 405. |
| `Presign.Success` | api/uploads/presign.js:40-97 | A URL is issued only to a valid request from a known user who is an approved owner. The key splits at `/` into `drafts`, the year and `<uuid>.<ext>`, the extension is allowed and lower-case, and the URL expires after 300 s. |
| `Presign.KeyShape` | api/uploads/presign.js:72 | The key `drafts/<year>/<uuid>.<ext>` splits back into its three parts, and the text after its last dot is the extension. |
| `Presign.KeyExtension` | api/uploads/presign.js:72 | The text after the key's last dot is the extension. |
| `DeletePhoto.RequestChecks` | api/uploads/delete.js:6-20 | Before any lookup: a non-DELETE request is 405, a missing `s3Key` or `photoId` is 400, and a missing or non-Bearer header is 401. |
| `DeletePhoto.LookupFailures` | api/uploads/delete.js:36-64 | An unknown user is 401, a user who is not an approved owner is 403, and an unknown photo is 404. |
| `DeletePhoto.OwnershipBeforeKey` | api/uploads/delete.js:66-74 | Another owner's photo is refused with 403 before the keys are compared. A key mismatch on one's own photo is 400. |
| `DeletePhoto.DeleteOnlyWhenAuthorized` | api/uploads/delete.js:76-96 | Storage delete is attempted exactly when every check passed, and only for the requested key, which is the photo's recorded key. Success (200) means it was authorised and the delete succeeded. |
| `GetUrls.UrlsSpec` | api/uploads/get-urls.js:4-50 | URLs are returned exactly for a POST of 1 to 100 keys that all sign. There is one URL per distinct key, each that key's signed URL, valid for 3600 s. More than 100 keys is rejected. |
| `PhotoData.PhotosWithUrlsSpec` | src/composables/usePhotoData.js:24-30 | The views keep the photos, their number and their order. A view has a URL exactly when a non-empty one is known for its key. It can be deleted exactly when the uploader's team id equals the user's. |
| `PhotoData.Keys` | src/composables/usePhotoData.js:47 | The key list has the photos' keys, one per photo, in order. |
| `PhotoData.AfterFetchSpec` | src/composables/usePhotoData.js:36-59 | A failed fetch keeps the photos and URLs and records the message. A successful fetch takes the rows in order, and no rows means no URLs and no error. No error means the URLs are those answered for the photos' keys. |
| `PhotoData.PreCheckSpec` | src/composables/usePhotoData.js:64-82 | The refusals come in order: signed out, missing season or year, type other than JPEG/PNG, size above 10 MiB. A file of exactly 10 MiB passes. |
| `PhotoData.ProgressSpec` | src/composables/usePhotoData.js:84-120 | Progress strictly rises through a prefix of 0, 10, 30, 70, 100 of at least two steps. It reaches 100 exactly when no step throws. |
| `PhotoData.PhotoStore.constructor` | src/composables/usePhotoData.js:16-21 | The refs start empty: no photos, no URLs, no error, not loading, not uploading, progress 0. |
| `PhotoData.PhotoStore.FetchPhotos` | src/composables/usePhotoData.js:33-60 | Without a season id nothing changes. Otherwise the gallery becomes the fetch result, loading ends false, and the upload state is untouched. |
| `PhotoData.PhotoStore.UploadPhoto` | src/composables/usePhotoData.js:63-133 | A refused file changes nothing and returns the refusal. Otherwise progress runs through the steps and resets to 0, and `uploading` ends false. The first step that throws is the error, with the gallery kept. A complete upload succeeds and refreshes the gallery. |
| `PhotoData.PhotoStore.RemovePhoto` | src/composables/usePhotoData.js:136-148 | A failed delete records its message. A done delete succeeds and refreshes the gallery. |
| `Router.GuardSpec` | src/router/index.js:39-66 | An open route proceeds. On a protected route, loading proceeds and signed-out goes Home. On an admin route, a signed-in user proceeds exactly when an admin. |
| `Router.RedirectsHome` | src/router/index.js:39-66 | Every redirect goes to `Home`, which the guard always lets through. |
| `Router.TableFlags` | src/router/index.js:12-31 | Every admin-only route is also auth-only. Route names and paths are unique. |
| `Router.AdminGuarded` | src/router/index.js:43-62 | On a route of the table marked admin, navigation proceeds exactly while auth loads or for a signed-in admin. |
| `Router.AdminFlagAloneIsOpen` | src/router/index.js:43-62 | The admin check sits inside the auth check: a route flagged admin-only but not auth-only lets everyone through. |
| `Tiering.GroupTiers` | src/services/seasonService.js:293-320 | The two grouping loops and the sorts produce the tier array of the counters. |
| `Tiering.BucketsAreGroups` | src/services/seasonService.js:294-312 | After both loops, the bucket for a count holds the rows of the titled teams at that count. The 0 bucket also holds the untitled participants. A count is a key exactly when its bucket is non-empty. |
| `Tiering.GroupMember` | src/services/seasonService.js:294-312 | A row sits in a count's bucket exactly when it is the team's own row and the team's count is that count. The team is titled, or untitled with an appearance. |
| `Tiering.TiersSpec` | src/services/seasonService.js:314-320 | Counts strictly ascend and no tier is empty. Teams within a tier do not increase in appearances. Each row is in its own count's tier, and every team of either counter is placed. |
| `Tiering.TiersDistinct` | src/composables/useChampionshipData.js:173-199 | No team has two rows across all the tiers. |
| `Summary.MaxOrZero` | src/services/seasonService.js:198 | `Math.max(..., 0)` is at least 0 and every value, and is 0 or one of the values. |
| `Summary.MaxOf` | src/composables/useChampionshipData.js:94 | `Math.max` of no values is `-Infinity` (`None`). Otherwise it is a value bounding all the others. |
| `Summary.TeamsWithExact` | src/services/seasonService.js:199-201 | The teams listed are exactly the keys holding the count, each once. |
| `Summary.NoTitles` | src/services/seasonService.js:211-212 | The untitled list is exactly the `appearances` keys with no titles. |
| `Summary.NoTitlesDisjointMost` | src/services/seasonService.js:198-212 | No untitled team is listed among those with the most titles. |
| `Summary.Droughts` | src/services/seasonService.js:205-207 | The drought entries are exactly the recorded teams with a positive gap to the current year. |
| `Summary.LongestDroughtSpec` | src/services/seasonService.js:204-208 | The longest drought is absent exactly when no gap is positive. Otherwise it has the largest gap and is the first entry with it, because the sort is stable. |

## Left out

- Database queries, the `fetch` of the JSON file, and the S3 client, signer and delete calls are foreign I/O. Their results are inputs: rows, `Query`/`Step` answers, and lookup functions returning `Option`.
- Vue reactivity (`ref`, `computed`, `watch`, `onMounted`) and async sequencing are not modelled. The computeds are functions or methods over explicit inputs. The watcher that refetches when the season id changes is not modelled.
- `fetchChampionships` is not modelled, because it only loads the JSON file. The query error returns of `getChampionshipStats`, `getChampionshipTiers` and `getDraftLocations` are not modelled either: they pass the query error through unchanged. The models start from the returned rows.
- `new Date().getFullYear()` is the `currentYear` parameter, and `crypto.randomUUID()` is the `uuid` parameter.
- Environment variables appear only as the `configured` flag of the handlers.
- `avgPosition` (floating-point division and `Math.round`) and the `teamStats` sort by it are not modelled, so records come in team order.
- DraftPositionData.TeamsSpec: the `localeCompare` sort of `teams` by name is locale-dependent and is not modelled. Teams are listed in first-seen order.
- SeasonService.DraftLocationsSpec: does not state that the input order of locations is kept.
- JavaScript objects put integer-like keys first and treat `__proto__` specially. The dictionaries keep plain insertion order. Team names are not integer-like.
- Names that are inherited `Object.prototype` members (`constructor`, `toString`, `valueOf`, `hasOwnProperty`, `__proto__`) are not modelled. The name map and the counters are plain JavaScript objects. For such a name, `teamNameMap[name] || name` (src/composables/useChampionshipData.js:26) returns the inherited function instead of the name. `(champCounts[name] || 0) + 1` (src/composables/useChampionshipData.js:69-85, 155-168; src/services/seasonService.js:172-190) concatenates strings. `!champCounts[team]` is false for them. The model's maps have no inherited entries, so each such name counts like any other.
- A `champion` field that is not a string is not modelled. The model types it as `string`, and for any other value `s.champion.includes` (src/composables/useChampionshipData.js:65, 102, 150) throws.
- Title counts are half-title integers instead of floating-point numbers. Tier counts are therefore twice the source's `parseFloat(count)`.
- Lower-casing covers ASCII letters only, and other characters are kept as they are. No non-ASCII character lower-cases to a letter of `jpg`, `jpeg` or `png`, so the extension check is unaffected.
- Request fields of the handlers are modelled as strings, and the presign `year` as a number. Non-string values, arrays or objects in those fields are not modelled.
- The presign and delete handlers turn an exception from the user or owner lookup into a 500 inside `try`. The model's lookups answer only found or not found.
- TeamService: lineage rows are assumed to name non-null ids. A `co_champion_id` is "present" when not null, so a falsy id such as 0 is not distinguished.
- `useAuth` returns neither `userProfile` nor `isAdmin`, although `usePhotoData` and the router read them. The profile's team id and the admin flag are parameters.
- Router: the "exactly one `next` call per navigation" holds by construction, because the guard is a function returning one decision.
- PhotoData: the `caption` and the metadata sent to `savePhotoMetadata` are not modelled, only whether each step succeeds. `console.error` is not modelled.
- src/services/photoService.js, src/services/draftPositionService.js and api/auth/validate.js are request/response glue and are not part of this model. The same holds for src/store/index.js, src/composables/useAdminData.js, useAuth.js, useTeamData.js, useSupabase.js, src/main.js and tailwind.config.js. Of api/uploads/get-urls.js, only the key-count check and the key-to-URL map are modelled.
