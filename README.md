# SteamLife achievement tracker and social features, modelled in Dafny

SteamLife tracks a user's progress through a catalog of "life achievements". Each
achievement belongs to an area, has a rarity (comum, incomum, raro, épico, lendário),
is worth some points and is locked or unlocked. This project models three parts of it:

- **The browser's progress manager** (`script.js`, class `AchievementManager`). It keeps
  the catalog in an array and caches it in local storage under a catalog hash. It numbers
  the achievements, filters them by area and status, and sorts the view by rarity. It also
  toggles one achievement, unlocks a random locked one, resets an area, and merges remote
  progress. With a user signed in, it debounces a write of the progress to the server.
  Modelled as the class `ProgressManager.AchievementManager` over an `array`. It is proved
  against the catalog functions of `Achievements`.
- **The friend system and profile search** (`firebase-service.js`). Sending, accepting and
  rejecting friend requests. Reading a friend's profile. Searching public profiles by name.
  Saving a public profile with its normalised search key. The rules are functions over a
  `Friends.Ledger` (the collections `usersPublic`, `users`, `users/{uid}/friends` and
  `friendRequests`). The store is the class `FriendStore.Store`: its methods read
  step by step, as the code's queries and loops do, and are proved equal to the rules.
  Search is `Search.SearchSpec`.
- **The backend's callable functions** (`functions/index.js`). `importUserProgress`
  unites the supplied unlocked ids with the stored ones. `getLeaderboard` lists the top
  users by points. `backupAllUsers` copies every user document into a backup collection.
  The rules are functions of `Callables`. The class `Callables.Backend` holds the
  collections and performs them.

Values of the document store and of JavaScript (`undefined`, `null`, booleans, numbers,
strings, arrays, server timestamps) are `JsValues.Value`. A document is a map from field
names to values, and truthiness and `||` are modelled explicitly. The signed-in user, the
current time and `Math.random()` are parameters.

Notable behaviours of the code, which the model keeps:

- mergeRemoteProgress unites the remote ids with the local ones (`script.js:235`). The
  remote side is not authoritative: a local unlock survives a merge.
- acceptFriendRequest writes only the acceptor's edge (`firebase-service.js:108`). There
  is no mirrored edge and no batch. getFriendProfile checks the target's edge to the
  requester (`firebase-service.js:139-140`), so the sender sees the acceptor as a friend,
  but the acceptor does not see the sender as one (`Friends.SendAcceptRoundTrip`).
- acceptFriendRequest also accepts a rejected request (`Friends.AcceptRevivesRejected`).
  Doing so can leave two live requests between the same users
  (`Friends.AcceptCanBreakUniqueLive`).
- rejectFriendRequest overwrites an accepted request and leaves the friendship edge in
  place (`Friends.RejectOverwritesAccepted`).

## Model

| member | source | states |
|---|---|---|
| Achievements.AutoGenerateIds | script.js:75-89 | element i gets id i+1 and keeps every other field; a list already numbered 1..n is returned unchanged; the result has sequential, distinct ids |
| Achievements.UnlockedIdsExact | script.js:260 | the saved ids are exactly the ids of unlocked achievements, one per unlocked achievement |
| Achievements.UnlockedIdsAppend | script.js:260 | the saved ids keep list order: the ids of a concatenation are the concatenation of the ids |
| Achievements.TotalPointsAppend | script.js:261 | the total points of a concatenation is the sum of the totals |
| Achievements.CountUnlockedAppend | script.js:260 | the unlocked count of a concatenation is the sum of the counts |
| Achievements.UpdateAtTotals | script.js:261 | replacing one achievement moves the total and the count by the difference of the old and new contributions |
| Achievements.ToggleMovesTotals | script.js:385-395 | toggling one achievement moves the total by exactly its points, and the unlocked count by one, in the direction of the toggle |
| Achievements.FilterView | script.js:345-362 | the view holds exactly the achievements of the area that pass the status filter, with their multiplicities; with neither filter it is the whole list |
| Achievements.Keep | script.js:349-357 | `filter`: only elements that pass the test, never more than the input |
| Achievements.KeepCount | script.js:349-357 | `filter` keeps each passing element as often as the input has it and drops every other |
| Achievements.KeepBoth | script.js:397-398 | filtering by two tests in turn is filtering by their conjunction |
| Achievements.KeepCommutes | script.js:349-357 | two filters may be applied in either order |
| Achievements.Insert | script.js:365-367 | one insertion step of the stable sort adds exactly `x` to the multiset |
| Achievements.InsertSorted | script.js:365-367 | inserting into a rarity-ordered list keeps it ordered |
| Achievements.SortByRarity | script.js:364-367 | the sort by `rarityOrder` is a permutation and is ordered by rank |
| Achievements.InsertAt | script.js:365-367 | the sort step places `x` right after the last element whose rank is at most its own (stability) |
| Achievements.SortOfSorted | script.js:365-367 | sorting an already rarity-ordered list changes nothing |
| Achievements.SortKeepsGroups | script.js:365-367 | the sort is stable: each rank group of the output is the rank group of the input, in input order |
| Achievements.SortIsGroups | script.js:364-367 | the sorted list is the comum group, then incomum, raro, épico and lendário, each in input order |
| Achievements.KeepGroups | script.js:364-367 | filtering the rank groups is taking the rank groups of the filtered list |
| Achievements.Reset | script.js:415-421 | resetAll locks every achievement of the selected area, or every achievement when none is selected, and changes nothing else |
| Achievements.ResetAllClearsProgress | script.js:415-421 | a reset with no area selected leaves no saved ids, no points and no unlocked achievement |
| Achievements.ResetIdempotent | script.js:415-421 | resetting twice is resetting once |
| Achievements.Merge | script.js:232-240 | each achievement becomes unlocked exactly when its id is in the merged set; nothing else changes |
| Achievements.MergeUnlockedIff | script.js:233-238 | after the merge an achievement is unlocked iff its id is remote or some unlocked achievement has it; a local unlock is never lost |
| Achievements.MergeUnionDistinct | script.js:233-238 | with distinct ids the merge is the plain union of remote and local progress |
| Achievements.MergeIdempotent | script.js:232-240 | merging the same remote ids twice is merging once |
| Achievements.MergeSavedIds | script.js:232-247 | the ids saved after a merge are the local unlocked ids together with the remote ids that name a catalog achievement |
| Achievements.LockedInView | script.js:397-401 | the positions, ascending, of exactly the locked achievements the view shows |
| Achievements.RankGroup | script.js:364-367 | the positions of one rarity rank, drawn from the given positions |
| Achievements.RankGroupKeepsOrder | script.js:365-367 | a rank group of increasing positions is increasing |
| Achievements.ViewOrderFrom | script.js:364-367 | the positions of rank at least r, grouped by rank in rank order: exactly those positions |
| Achievements.ViewOrder | script.js:397-398 | the locked positions in the order of the sorted view: exactly the same positions |
| Achievements.ViewOrderSorted | script.js:364-367 | the view's order goes by rarity rank |
| Achievements.ViewOrderStable | script.js:365-367 | within a rank the view's order keeps list order, and no position comes twice |
| Achievements.AtLocked | script.js:397-398 | the candidate positions name exactly the locked achievements of the view, in list order |
| Achievements.AtRankGroup | script.js:365-367 | a rank group of positions names the rank group of the achievements they name |
| Achievements.AtViewOrder | script.js:364-367 | the positions in the view's order name the rank groups of what they name |
| Achievements.ViewOrderIsSortedView | script.js:397-398 | the positions in the view's order name exactly `locked` = the locked elements of the sorted filtered list, in the same order |
| Achievements.ViewOrderCandidates | script.js:397-401 | the view's order is empty iff there is no candidate, and holds only candidates |
| Achievements.ViewOrderEmpty | script.js:399-401 | the view has a locked achievement iff the list has a locked achievement in view |
| Achievements.NoCandidatesIffAllUnlocked | script.js:399-404 | unlockRandom finds nothing to unlock exactly when every achievement in view is unlocked |
| Achievements.UnlockCandidate | script.js:406-411 | unlocking a locked candidate adds one to the unlocked count and its points to the total |
| ProgressManager.ProgressOf | script.js:257-262 | the progress write holds exactly the unlocked ids, one per unlocked achievement, the caller's uid and the time; no unlocked achievement means 0 points |
| ProgressManager.ResetZeroPoints | script.js:261 | with nothing unlocked the total is 0 |
| ProgressManager.AfterViewSort | script.js:345-367 | getFilteredAchievements sorts the manager's own list when neither filter applies, and leaves it alone otherwise |
| ProgressManager.PickIndex | script.js:406 | `Math.floor(Math.random() * n)` is an index below n |
| ProgressManager.Pick | script.js:397-408 | the position unlockRandom unlocks: none iff no locked achievement is in view, else a locked one in view, at index `Math.floor(rand * n)` of the view's order |
| ProgressManager.PickDrawsFromSortedView | script.js:397-408 | the picked achievement is `locked[Math.floor(rand * locked.length)]` for `locked` the locked elements of the sorted view, and there is no pick iff `locked` is empty |
| ProgressManager.ShiftLeft | script.js:365-367 | one sort step moves the element left past exactly the higher-ranked elements before it and shifts them right |
| ProgressManager.InsertIntoPrefix | script.js:365-367 | one sort step turns the array's prefix into `Insert(prefix, x)` and leaves the rest |
| ProgressManager.SortByRarityInPlace | script.js:365-367 | the in-place sort leaves the array holding `SortByRarity` of its old contents |
| ProgressManager.AchievementManager.constructor | script.js:3-12 | a new manager: no achievements, no area, filter `todas`, no user, no timer |
| ProgressManager.AchievementManager.DebouncedSaveToServer | script.js:250-255 | cancels an armed timer and arms one for the uid |
| ProgressManager.AchievementManager.SaveToLocalStorage | script.js:91-98 | stores the list and, with a user signed in, re-arms the save timer for that user |
| ProgressManager.AchievementManager.SaveTimerFires | script.js:252-254 | an armed timer issues the progress write of the current list for its uid and disarms |
| ProgressManager.AchievementManager.LoadData | script.js:35-62 | a changed catalog hash numbers the fetched catalog; a matching hash keeps the saved list when it is usable, else numbers the catalog; the hash and list are stored |
| ProgressManager.AchievementManager.SetCurrentUser | script.js:199-200 | the sign-in observer records the user |
| ProgressManager.AchievementManager.SelectArea | script.js:310-312 | a new area resets the status filter to `todas` |
| ProgressManager.AchievementManager.SetFilter | script.js:103-108 | a filter button sets the status filter |
| ProgressManager.AchievementManager.FindById | script.js:377 | `find` by id: the first position holding the id, or none when no position does |
| ProgressManager.AchievementManager.ToggleAchievement | script.js:385-389 | flips exactly the given achievement, stores the list and re-arms the save |
| ProgressManager.AchievementManager.ResetAll | script.js:415-421 | the list becomes `Reset` of the old list, is stored, and the save is re-armed |
| ProgressManager.AchievementManager.MergeRemoteProgress | script.js:232-247 | the stored list is `Merge` of the old list and the remote ids (missing ids read as []); the list is then rendered (re-sorted by rarity when the view is the whole list), and with a user signed in the written progress is that of the rendered list |
| ProgressManager.AchievementManager.Render | script.js:452-456 | the list ends as `AfterViewSort` of the old list: sorted once by rarity when the view is the whole list (the second view finds it sorted), unchanged otherwise |
| ProgressManager.AchievementManager.GetFilteredAchievements | script.js:345-370 | the view is the filtered list sorted by rarity: the manager's own array sorted in place when no filter applies, else a new array |
| ProgressManager.AchievementManager.UnlockRandom | script.js:397-413 | after the view's sort, the achievement `Pick` names is unlocked and the list stored; with none in view nothing else changes |
| ProgressManager.AchievementManager.UnlockPicked | script.js:399-411 | unlocks the picked position and stores the list, or changes nothing when there is no pick |
| ProgressManager.AchievementManager.Unlock | script.js:408-409 | unlocks exactly the given achievement, stores the list and re-arms the save |
| JsValues.Or | firebase-service.js:147 | `v \|\| d`: v when truthy, d otherwise |
| JsValues.Lower | firebase-service.js:160 | `toLowerCase`: same length, each character lowered, no upper-case letter left |
| JsValues.Trim | firebase-service.js:160 | `trim`: the input with only white space removed before and after, and no white space left at either end |
| JsValues.Contains | firebase-service.js:183 | `indexOf(q) !== -1` iff q occurs somewhere |
| JsValues.InPrefixRangeIsPrefix | firebase-service.js:168-170 | every search key in the range `[q, q + '']` starts with q |
| JsValues.PrefixIsInPrefixRange | firebase-service.js:168-170 | a key starting with q is in the range unless the character after q is at or above U+F8FF |
| Friends.FirstLive | firebase-service.js:79-86 | the scan of requests between two users finds the first live one in id order, or none iff there is none |
| Friends.Send | firebase-service.js:60-90 | unauthenticated iff no caller; invalid-argument iff the target is empty or the caller; not-found iff the target has no public profile (guards in that order); on success a new pending request under a fresh id and nothing else changes; on failure the store is unchanged |
| Friends.SendOkIff | firebase-service.js:62-89 | a send succeeds iff the caller is signed in, names another user with a public profile, has no edge to them, and no live request joins the two in either direction |
| Friends.SendErrorMeaning | firebase-service.js:62-86 | once the guards pass: already-exists iff no edge and a live request to the target; reverse-pending iff no edge, none forward, and the lowest-id live request back is pending; already-friends iff an edge, or none forward and the lowest-id live request back is accepted |
| Friends.FirstLiveIsLowest | firebase-service.js:79-86 | the reverse scan stops at status s iff the lowest-id live request between the two users has status s |
| Friends.SendAddsOneRequest | firebase-service.js:87-89 | a successful send adds exactly one pending request under an unused id and keeps the ledger valid |
| Friends.DropRejected | firebase-service.js:75-84 | removing rejected requests keeps exactly the live ones |
| Friends.FirstLiveIgnoresRejected | firebase-service.js:79-86 | the reverse scan is the same without rejected requests |
| Friends.RejectedNeverBlocks | firebase-service.js:71-86 | rejected requests never affect a send's outcome |
| Friends.ReverseSendFails | firebase-service.js:79-86 | after a successful send, a send back fails, with reverse-pending when no earlier guard fires |
| Friends.FirstLiveFrom | firebase-service.js:81-85 | the scan returns the status of the first live request |
| Friends.SendPreservesUniqueLive | firebase-service.js:60-90 | a send keeps at most one live request between any two users |
| Friends.RejectPreservesUniqueLive | firebase-service.js:115-127 | a reject keeps that invariant |
| Friends.AcceptPendingPreservesUniqueLive | firebase-service.js:95-110 | accepting a pending request keeps that invariant |
| Friends.AcceptCanBreakUniqueLive | firebase-service.js:101-106 | accepting a rejected request when a newer one is pending leaves two live requests |
| Friends.Accept | firebase-service.js:95-110 | unauthenticated iff no caller; not-found iff no such request; permission-denied iff the caller is not its addressee; an accepted request returns success with nothing written; only the request and the friend edges may change; a failure changes nothing |
| Friends.AcceptOkIff | firebase-service.js:97-105 | accept succeeds iff the caller is signed in and is the addressee of an existing request, whatever its status |
| Friends.AcceptWritesOneEdge | firebase-service.js:105-109 | a successful accept marks the request accepted, changes no other request, and adds only the acceptor's edge to the sender, never the mirror |
| Friends.AcceptIdempotent | firebase-service.js:104 | accepting twice is accepting once |
| Friends.AcceptRevivesRejected | firebase-service.js:104-108 | a rejected request can still be accepted, making the acceptor's edge |
| Friends.Reject | firebase-service.js:115-127 | unauthenticated iff no caller; not-found iff no such request; permission-denied iff the caller is neither party; a rejected request returns success with nothing written; only the request may change; a failure changes nothing |
| Friends.RejectOkIff | firebase-service.js:117-124 | reject succeeds iff the caller is signed in and is either party of an existing request |
| Friends.RejectOverwritesAccepted | firebase-service.js:124-126 | a successful reject marks the request rejected, even an accepted one, and keeps every friendship edge |
| Friends.RejectIdempotent | firebase-service.js:124 | rejecting twice is rejecting once |
| Friends.PrivateOf | firebase-service.js:142-147 | a friend's private part: the stored unlocked ids and points when truthy, else [] and 0 |
| Friends.GetFriendProfile | firebase-service.js:133-150 | unauthenticated iff no caller, else success; isFriend iff the target has an edge to the requester; a friend with a private document shows `PrivateOf` of it; a non-friend or a friend without one shows [] and 0; the other fields are the public document's |
| Friends.SendAcceptRoundTrip | firebase-service.js:60-150 | after a sends and b accepts, a sees b as a friend with b's points, while b sees a as a friend only if a already had an edge |
| Search.Limit | firebase-service.js:171 | `.limit(n)`: the first n documents |
| Search.NormalizeQuery | firebase-service.js:160 | the normalised query is the lower-cased query ('' when missing) with only white space removed at either end; it has no upper-case letter and no white space at either end |
| Search.LowerTrimmed | firebase-service.js:160 | lower-casing a trimmed string gives the trimmed lower-cased string at the same place |
| Search.NameOf | firebase-service.js:183 | `(displayName \|\| '')`: "" when falsy, the string when a string, and a failure exactly when it is a truthy non-string |
| Search.Hit | firebase-service.js:175 | `{ uid: doc.id, ...data }`: all the document's fields, with the id only when the document has no `uid` field |
| Search.HitKeepsField | firebase-service.js:175 | a hit keeps every field of the document except `uid` |
| Search.Hits | firebase-service.js:175 | one hit per document of the snapshot, in order |
| Search.RangeMatches | firebase-service.js:166-170 | the documents whose search key is in the prefix range, in listing order |
| Search.InsertByKey | firebase-service.js:168-171 | one insertion step of the range query's order: adds exactly one document and keeps the list ordered by `searchName` |
| Search.SortByKey | firebase-service.js:168-171 | the range query's order: a permutation, ordered by `searchName` |
| Search.ByKeyOrdered | firebase-service.js:168-171 | in that order each document's `searchName` is at most every later one's |
| Search.PrimarySnapshot | firebase-service.js:166-172 | at most 100 documents, each in the prefix range |
| Search.PrimarySnapshotOrder | firebase-service.js:166-172 | the snapshot is ordered by `searchName`; it holds every in-range document when they are at most 100, else exactly 100 |
| Search.PrimaryKeepsLowest | firebase-service.js:166-172 | the 100 kept are the lowest by `searchName`: every in-range document left out sorts at or after each kept one |
| Search.RangeHitsGathered | firebase-service.js:166-175 | when the range matches fit the limit, every in-range document's hit is gathered and every gathered name is usable |
| Search.FirstThrow | firebase-service.js:180-186 | the index of the first document whose display name fails, or the length when none fails |
| Search.MatchingHits | firebase-service.js:180-186 | exactly the hits of the documents that match the query |
| Search.FallbackScan | firebase-service.js:177-189 | stops iff some display name fails; pushes exactly the matching hits of the documents before the first failure |
| Search.FinalFilter | firebase-service.js:191 | fails iff some result's display name fails; otherwise keeps exactly the results that match |
| Search.Filtered | firebase-service.js:191-197 | when every display name is usable, exactly the matching results; when one fails, nothing |
| Search.Gathered | firebase-service.js:166-189 | the prefix hits when there are any; else, from the first 500 listed documents, exactly the matching hits before the first failing display name |
| Search.SearchSpec | firebase-service.js:158-198 | an empty query finds nothing; with usable names the results are the gathered hits that match, in gathered order (exactly those); a failing name gives nothing; at most 500 results |
| Search.FallbackFindsEveryMatch | firebase-service.js:177-191 | with no prefix hit and no failing name among the first 500, every matching one of them is found |
| Search.PrimaryFindsEveryMatch | firebase-service.js:166-191 | with prefix hits and usable names, every matching prefix hit is found |
| Search.PrimaryHitsWin | firebase-service.js:173-177 | when the prefix query finds something, every result is a prefix hit whose search key starts with the query |
| Search.ResultsFromListing | firebase-service.js:158-198 | every result is a listed document tagged with its id |
| Search.ResultsFromCollection | firebase-service.js:158-198 | every result is a stored public profile tagged with its id |
| Search.ProfileToSave | firebase-service.js:210-216 | fails iff the display name is a truthy non-string; keeps every given field; sets `searchName` to the trimmed lower-cased display name when it is truthy |
| Search.SavedProfileInRange | firebase-service.js:210-216 | a saved profile is found by the prefix query for any prefix of its key (below U+F8FF) |
| Search.SavedProfileMatches | firebase-service.js:183-191 | a saved profile passes the client-side filter for any prefix of its key |
| Search.SearchExample | firebase-service.js:158-198 | the query " An " over Ana and Bruno finds Ana only |
| FriendStore.Store.constructor | firebase-service.js:60-223 | an empty store over the given profiles is valid |
| FriendStore.Store.SendFriendRequest | firebase-service.js:60-94 | the guards in order, the forward scan, the reverse scan and the add act as `Friends.Send` and keep the store valid |
| FriendStore.Store.AcceptFriendRequest | firebase-service.js:95-114 | acts as `Friends.Accept` |
| FriendStore.Store.RejectFriendRequest | firebase-service.js:115-132 | acts as `Friends.Reject` |
| FriendStore.Store.GetFriendProfile | firebase-service.js:133-155 | returns `Friends.GetFriendProfile` of the store |
| FriendStore.Store.SearchUsersPublic | firebase-service.js:158-198 | returns `SearchSpec`; every result is a stored profile tagged with its id |
| FriendStore.Store.SavePublicProfile | firebase-service.js:210-223 | true iff the profile can be built; the profile is merged over the stored one; false writes nothing |
| FriendStore.PushHits | firebase-service.js:174-175 | the loop pushes `Hits` of the snapshot |
| FriendStore.FallbackScanLoop | firebase-service.js:177-189 | the loop pushes what `FallbackScan` pushes |
| FriendStore.StoppedScanStays | firebase-service.js:180-186 | once a display name fails, later documents add nothing |
| FriendStore.FilterByName | firebase-service.js:191 | the filter returns `FinalFilter`'s result, or [] when a display name fails |
| FriendStore.NoneStays | firebase-service.js:191 | once a display name fails, the filter fails whatever follows |
| Callables.ImportGuard | functions/index.js:17-35 | unauthenticated iff no caller; invalid-argument iff no target uid; permission-denied iff another user's uid by a non-admin; passes iff the caller targets itself or is an admin |
| Callables.SuppliedIds | functions/index.js:23 | an array `unlockedIds` is taken as given; a non-array reads as [] |
| Callables.SuppliedPoints | functions/index.js:24 | a number `totalPoints` is kept; anything else reads as 0 |
| Callables.MergeFlag | functions/index.js:25 | `merge` defaults to true when absent; a given value counts by its truthiness |
| Callables.AddAll | functions/index.js:40-44 | `Set.add` in turn: the members are the union, the old ones first, still without repeats |
| Callables.StoredIds | functions/index.js:43 | stored ids `\|\| []`: [] when falsy, the array when an array; a truthy non-array fails, with internal |
| Callables.FinalUnlocked | functions/index.js:40-45 | the supplied ids united with the stored ones (when the document exists and merge holds), without repeats; fails iff the stored ids fail |
| Callables.Import | functions/index.js:16-59 | a failing guard's code is the one returned; any later failure is internal; a failure writes nothing; success needs the guards passed |
| Callables.ImportStoresUnion | functions/index.js:37-55 | success stores exactly the union, each id once, the supplied points and the time, keeps other fields and users, and returns the size of the set |
| Callables.AddAllAbsorbs | functions/index.js:40-44 | uniting a distinct list with itself plus more gives that list |
| Callables.AddAllPresent | functions/index.js:44 | adding ids already present changes nothing |
| Callables.AddAllFresh | functions/index.js:44 | adding distinct new ids appends them in order |
| Callables.AddAllSplit | functions/index.js:40-44 | adding two lists is adding one then the other |
| Callables.ReimportSame | functions/index.js:40-45 | uniting a list of distinct ids with a distinct list that starts with them gives that list |
| Callables.ReimportStable | functions/index.js:40-45 | uniting the supplied ids with what a merging import stored gives the same stored list |
| Callables.StoredAfterWrite | functions/index.js:43-53 | after an import, the stored ids read back are the ids it wrote |
| Callables.ImportTwiceStable | functions/index.js:16-59 | importing the same request twice with merge stores what the first import stored |
| Callables.LimitArg | functions/index.js:65 | a given number is the limit; otherwise 10 |
| Callables.EntryOf | functions/index.js:69-71 | an entry: the uid, the stored `totalPoints` when truthy else 0, the stored `lastUpdated` when truthy else null |
| Callables.Leaderboard | functions/index.js:64-78 | a negative limit fails, with internal; otherwise exactly min(limit, ranked) entries, entry i made from the i-th ranked user |
| Callables.EntryKeepsPoints | functions/index.js:70 | an entry shows the points its document ranks by |
| Callables.LeaderboardDescending | functions/index.js:67-73 | the leaderboard keeps the descending order of points |
| Callables.GetLeaderboard | functions/index.js:66-73 | the loop returns `Leaderboard` |
| Callables.BackupName | functions/index.js:87 | the backup collection is the given non-empty name, else `users_backup` |
| Callables.BackupCopy | functions/index.js:89-95 | every user document, stamped with `backedUpAt`, under its id |
| Callables.BackupCopiesEveryUser | functions/index.js:86-96 | after a backup each user is in the backup collection, stamped; other backup documents stay; the count is the number of users |
| Callables.AddEach | functions/index.js:44 | the `forEach(add)` loop computes `AddAll` |
| Callables.Backend.constructor | functions/index.js:16-101 | a backend over the given collections |
| Callables.Backend.ImportUserProgress | functions/index.js:16-59 | acts as `Import` on `users` and touches no other collection |
| Callables.Backend.BackupAllUsers | functions/index.js:82-101 | a non-admin is refused with nothing written; an admin's backup adds `BackupCopy` of the users to the backup collection and returns the number of users |

## Left out

- The DOM: rendering, cards, modals, toasts, area titles and `updateStats`. Its completion
  percentage is floating point.
- `fetch` of the catalog and the JSON serialisation behind the catalog hash: the hash is a
  parameter. The `try`/`catch` around loadData is left out too.
- `init`, the event-listener wiring and the migrate button. `loadUserDataFor` and the
  firebase-service helpers `loadUserProgress`, `saveUserProgress`, `getPublicProfile`,
  sign-in and sign-out are left out, as are `setAdminClaim.js` and the Firebase
  configuration. They are I/O around the modelled operations.
- Timers: the debounce is the `pendingSave` field, and the timer's expiry is the separate
  method `SaveTimerFires`. The clock is a parameter `now`. `Math.random()` is a parameter
  `rand`.
- Server timestamps are `Stamp(now)`. The `createdAt`, `acceptedAt`, `rejectedAt` and
  `since` fields are not stored.
- Document ids for requests are natural numbers handed out in increasing order. The
  store's query results are read in id order.
- The document store's query engine is not modelled. Search takes a listing of the
  collection in document-id order, the order an unordered `.limit(500)` returns, and
  applies the fallback's limit to it. The range query orders its matches by `searchName`
  (SortByKey, a stable sort of the listing, so equal names stay in id order) before its
  limit of 100. String order is by code point, which is the order of the UTF-8 bytes
  the store compares. The leaderboard takes the users already ordered by points.
- Concurrency: two requests racing between the scans and the add are not modelled. Store
  failures (network, permissions) and Firestore's batch-size limit are left out too.
- Unicode: lower-casing and trimming cover ASCII letters and ASCII white space only.
- Numbers are integers. NaN, fractions and `-0` are not modelled.
- A rarity outside the five known ones (where `rarityOrder` gives `undefined`) is not
  modelled.
- An achievement's missing `id` is 0, and a missing `areaId` is `None`.
- `Set` membership uses structural equality of values. JavaScript's `Set` compares arrays
  and objects by reference.
- The re-sort done by `render`. Every render calls `updateStats` and
  `renderAchievements`, and both call getFilteredAchievements (`script.js:452-460`,
  `script.js:427`). With neither filter applied, that sorts the manager's own list in
  place (`script.js:364-367`). Renders happen at start-up (`script.js:19` → selectArea →
  `script.js:332`) and after toggle, reset, merge and unlock (`script.js:388`, `422`,
  `242`, `411`). LoadData, ToggleAchievement, ResetAll and UnlockRandom end before that
  render, so the list order they leave is the one before the re-sort; the debounced save
  that follows them reads the list when its timer fires (SaveTimerFires), after the
  render. MergeRemoteProgress writes to the server straight after its render, so it
  includes the render (Render) and writes the re-sorted list's ids. GetFilteredAchievements
  models the sort itself, and the saved ids are stated in list order whatever that order
  is.
- resetAll compares `a.areaId === this.currentAreaId` without `parseInt`
  (`script.js:417`), while the view filter parses the area id first (`script.js:352`).
  Area ids are integers here (`Option<int>`), so the two comparisons agree. A catalog
  whose area ids are strings, where the reset would match nothing, is not modelled.
- mergeRemoteProgress takes `remote.unlockedIds || []` as given (`script.js:233`). The
  model assumes a falsy value or an array of integer ids. A truthy non-array, or ids of
  another type, is not modelled.
- ProgressManager.AchievementManager.UnlockRandom: the random candidate is named by its
  position in the list. This stands for the shared object that the code mutates.
- ProgressManager.AchievementManager.GetFilteredAchievements: the view is returned as an
  array, and the page render that follows is not modelled.
