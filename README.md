# rlmatchup: tournament ledger and team generation

This project models the tournament server of rlmatchup (`server.js`). A
tournament record holds the registrations of rated players: display name,
Epic id, rating (MMR), timestamp and an optional pre-assigned team number.
Its handlers register, remove and pre-assign players while registrations are
open. The generate handler turns the registrations into teams:

- Trimming. When the number of players is not a multiple of the team size,
  the excess players are spliced out. In balanced mode these are the players
  farthest from the pool's mean rating. In random mode they are drawn at
  random.
- Balanced mode (`balanceTeams`). Pre-assigned players go to their team.
  The others, highest rating first, each join the team with the fewest
  players and, among those, the lowest total rating.
- Random mode (`randomTeams`). The shuffled pool is cut into consecutive
  teams.

Read-only projections list the public open tournaments, look a tournament up
by its join code, and show a tournament with the individual ratings of its
registered and team players hidden. That reduced view is what a request gets
unless its query string says `isCreator=true`; nothing else identifies the
creator, so any client can ask for the full record.

Modules, one file each:

| module | file | contents |
|---|---|---|
| `Records` | records.dfy | player, team, rounding of averages, case folding of Epic ids, `splice(i, 1)` |
| `Draws` | draws.dfy | the random choices, as injected sequences of indices |
| `Trimming` | trimming.dfy | remainder removal |
| `Sorting` | sorting.dfy | the stable sort, highest rating first |
| `Balancer` | balancer.dfy | `balanceTeams` |
| `RandomMode` | random_teams.dfy | `randomTeams` |
| `Generation` | generation.dfy | what generation computes, as one function |
| `Ledger` | ledger.dfy | the class `Tournament` and its mutating handlers |
| `Views` | views.dfy | the public list, the code lookup and the reduced view |

Each loop of the source becomes a Dafny method with a loop. Its `ensures`
ties the result to a specification function, and lemmas prove properties of
that function:

- `Trimming.Trim`, `Trimming.SpliceOutliers` and `Trimming.SpliceDrawn` are the trimming loops.
- `Balancer.BalanceTeams` runs its three `forEach` loops over an `array` of teams.
- `RandomMode.RandomTeams` is the `for` loop that builds teams.

The handlers that change a tournament are methods of `Ledger.Tournament`.
Each of them keeps the invariant `Valid()`:

- the registrations never exceed the capacity;
- no two registrations share a case-folded Epic id;
- nothing is generated while registrations are open.

Randomness is a parameter of the operations that use it:

- A draw `Math.floor(Math.random() * players.length)` is an index below the
  current pool length. A trim takes a sequence of such indices
  (`Draws.ValidPicks`).
- The shuffle `sort(() => Math.random() - 0.5)` is a draw of every element
  (`Draws.Shuffle`). Every rearrangement can arise this way
  (`Draws.EveryOrderIsDrawn`).
- The clock and the code generator are parameters of `Tournament.Create` and
  `Tournament.Register`.

Arithmetic is done on integers only:

- `Math.round(sum / count)` is computed as `(2 * sum + count) / (2 * count)`.
- The outlier test `|mmr - sum / count|` is compared as `|count * mmr - sum|`.

The model does what the code does at these points, where a reader might
expect otherwise:

- Trimming measures deviation from the mean of the original pool. That mean
  is computed once, before the loop; it is not recomputed after each removal.
- The ratings of new registrations are not range-checked.
- Generation has no status guard and records no generation time.
- Creating a tournament has no creator limit and no name uniqueness check.
- Overwriting the teams stores them as given. It does not recompute `avgMMR`.
- A `preAssignedTeam` of 0 or NaN counts as unassigned, because the filter
  tests truthiness.

## Model

| member | source | states |
|---|---|---|
| `Records.RoundedMeanIsNearest` | server.js:286 | `Math.round(sum / count)` for non-negative integers: the integer `r` with `2·count·r <= 2·sum + count < 2·count·(r + 1)`, the nearest integer with halves rounded up |
| `Records.RoundedMean` | server.js:286 | `Math.round(sum / count)` on integers; its meaning is stated by `RoundedMeanIsNearest` |
| `Records.SumMmr` | server.js:160 | the `reduce((sum, p) => sum + p.mmr, 0)` total, the same fold as at server.js:276 and 286; stepped by `SumMmrAppend` |
| `Records.Lower` | server.js:90 | ASCII `toLowerCase`, applied letter by letter |
| `Records.Upper` | server.js:63 | ASCII `toUpperCase`, applied letter by letter |
| `Records.SameId` | server.js:199 | two Epic ids match when they agree after `toLowerCase`; `IsRegisteredIgnoresCase` shows the duplicate test is this relation |
| `Records.MeanOf` | server.js:285-287 | a team's `avgMMR` is NaN exactly when the team has no players |
| `Records.MeanOfIsNearest` | server.js:285-287 | a team with players has a numeric `avgMMR` within half a unit of its members' mean rating, halves rounded up |
| `Records.SumMmrAppend` | server.js:160 | pushing a player adds its rating to the total of the `reduce` |
| `Records.RemoveAt` | server.js:165 | `splice(i, 1)` gives one element fewer |
| `Records.RemoveAtMultiset` | server.js:165 | `splice(i, 1)` removes exactly the element at `i` and keeps every other |
| `Records.RemoveAtIndex` | server.js:206 | after `splice(i, 1)` the elements before `i` keep their positions and those after it move down by one |
| `Records.DropRemainder` | server.js:157 | removing `n % k` of `n` players leaves `k · floor(n / k)`, a multiple of `k` with the same quotient |
| `Records.DistinctOccursOnce` | server.js:154 | in a list of pairwise distinct players each player occurs at most once |
| `Records.FlattenContains` | server.js:259 | a player in some team's `players` is among the players of all teams |
| `Draws.Draw` | server.js:168-170 | drawing one element per index gives as many drawn elements as indices, and drawn plus left together have the pool's size |
| `Draws.ValidPicks` | server.js:169 | each `Math.floor(Math.random() * players.length)` is an index below the length of the pool left at that moment, as at server.js:293 for the shuffle; `DrawStep` unfolds it and `EveryOrderIsDrawn` shows it admits every rearrangement |
| `Draws.DrawStep` | server.js:169 | each draw removes the element at the drawn index, and the following draws index what is left |
| `Draws.DrawnAfter` | server.js:168-170 | one more draw appends the element at the drawn index to what was drawn and continues on the rest |
| `Draws.DrawConserves` | server.js:168-170 | the drawn and the remaining elements together are the pool, rearranged |
| `Draws.Shuffle` | server.js:293 | a shuffle has the pool's length |
| `Draws.ShufflePermutes` | server.js:293 | a shuffle is a rearrangement of the pool: the same elements with the same multiplicities |
| `Draws.ShuffleStep` | server.js:293 | a shuffle starts with the element of the first draw, followed by a shuffle of the rest of the pool |
| `Draws.EveryOrderIsDrawn` | server.js:293 | every rearrangement of the pool is the shuffle of some valid sequence of draws |
| `Draws.DrawsFor` | server.js:293 | drawing, each time, the next target element from what is left is a valid sequence of draws whose shuffle is the target |
| `Trimming.Outlier` | server.js:162-164 | the reduce returns an index into the pool |
| `Trimming.Deviation` | server.js:163 | `Math.abs(p.mmr - avgMMR)` scaled by the count, `abs(count · mmr - sum)`, so it orders players as the source's distance does |
| `Trimming.OutlierIsFirstMaximum` | server.js:162-164 | the player at that index deviates from the mean at least as much as every player, and strictly more than every earlier one |
| `Trimming.RemoveOutliers` | server.js:161-166 | `k` balanced rounds remove exactly `k` players and keep the rest |
| `Trimming.RemoveOutliersStep` | server.js:162-165 | each round splices out the current outlier, measured against the fixed mean, and records it before the later removals |
| `Trimming.RemoveOutliersConserves` | server.js:161-166 | the kept and the removed players together are the pool, rearranged |
| `Trimming.Trimmed` | server.js:154-172 | trimming removes exactly `n % teamSize` players, and the kept pool holds `teamSize · floor(n / teamSize)` players |
| `Trimming.Trim` | server.js:154-172 | the trimming block returns the pool and the `removedPlayers` of `Trimmed` |
| `Trimming.SpliceOutliers` | server.js:160-166 | the balanced loop's result equals `RemoveOutliers` over the original mean |
| `Trimming.SpliceOutlierStep` | server.js:162-165 | one round of the loop moves the current outlier to the end of `removedPlayers` and leaves the later rounds to act on the rest |
| `Trimming.SpliceDrawn` | server.js:168-170 | the random loop's result equals the draw of the given indices |
| `Trimming.TrimmedConserves` | server.js:154-172 | the kept and the removed players together are the registrations, rearranged |
| `Trimming.OutlierBoundsRest` | server.js:162-165 | after the outlier is removed, nobody left deviates more than it did |
| `Trimming.WithinPart` | server.js:165 | a deviation bound on a pool also bounds every part taken from it |
| `Trimming.FirstRemovedDominates` | server.js:161-166 | the first player removed deviates at least as much as every later removed player and every kept player |
| `Trimming.OutliersDominate` | server.js:161-166 | every removed player deviates from the original mean at least as much as every kept player |
| `Trimming.OutliersInOrder` | server.js:161-166 | players are removed in non-increasing order of deviation |
| `Trimming.ConsInOrder` | server.js:161-166 | a first removal that deviates at least as much as the later ones, which are in order, keeps the removals in order |
| `Trimming.BalancedTrimDominates` | server.js:157-166 | both properties hold for a balanced trim of the registrations, measured against their mean |
| `Trimming.TrimExample` | server.js:157-166 | ratings 1000, 1000, 1000 and 10 with teams of three: the player rated 10 is the one removed, and the others are kept in order |
| `Trimming.ExampleOutlier` | server.js:162-164 | in that pool the outlier index is 3 |
| `Sorting.SortByMmrSorts` | server.js:264 | the sort returns a rearrangement of the unassigned players with ratings non-increasing |
| `Sorting.SortByMmrIsStable` | server.js:264 | players of equal rating keep their relative order |
| `Sorting.InsertKeepsOrder` | server.js:264 | inserting a player into players sorted by rating keeps them sorted and adds exactly that player |
| `Sorting.InsertMultiset` | server.js:264 | inserting adds exactly the inserted player |
| `Sorting.InsertBounded` | server.js:264 | inserting a player rated at most `b` among players rated at most `b` gives players rated at most `b` |
| `Sorting.NonIncreasingTail` | server.js:264 | the tail of sorted players is sorted and rated no higher than its head |
| `Sorting.NonIncreasingCons` | server.js:264 | a head rated at least as high as a sorted tail gives sorted players |
| `Sorting.SortByMmr` | server.js:264 | `sort((a, b) => b.mmr - a.mmr)` as a stable insertion sort; `SortByMmrSorts` and `SortByMmrIsStable` state what it returns |
| `Sorting.InsertByMmr` | server.js:264 | one insertion step of that sort; `InsertKeepsOrder` states what it returns |
| `Balancer.SelectMembers` | server.js:252-253 | the two filters keep exactly the players whose `preAssignedTeam` is truthy, or falsy |
| `Balancer.Select` | server.js:252-253 | the two `filter` calls on the truthiness of `preAssignedTeam`; `SelectMembers` and `SelectPartitions` state what they keep |
| `Balancer.SelectAppend` | server.js:252-253 | the filters keep the players' relative order: filtering two lists in a row is filtering each and concatenating |
| `Balancer.IsPreAssigned` | server.js:252-253 | truthiness of `preAssignedTeam`: a number other than 0; 0, NaN and an absent slot are falsy; `SelectMembers` uses it |
| `Balancer.TeamIndex` | server.js:257 | `preAssignedTeam - 1`, never in range for a slot without a number; `InRangeMembers` and `PreAssignedLands` use it |
| `Balancer.Join` | server.js:259 | `team.players.push(player)`, also at server.js:281; `FlattenJoin` states that it adds exactly that player |
| `Balancer.InRange` | server.js:257-258 | the pre-assigned players the range test lets through; `InRangeMembers` states which |
| `Balancer.SelectPartitions` | server.js:252-253 | together, the two filters are a split of the players |
| `Balancer.SelectUniform` | server.js:252-253 | when every player is (or none is) pre-assigned, one filter keeps all players and the other none |
| `Balancer.InRangeMembers` | server.js:257-258 | the range test keeps exactly the players whose team index is in `[0, numTeams)` |
| `Balancer.EmptyTeams` | server.js:246-249 | `numTeams` teams are created |
| `Balancer.PlaceAssigned` | server.js:256-261 | placing pre-assigned players adds no team |
| `Balancer.Draft` | server.js:267-282 | drafting adds no team |
| `Balancer.WithAverages` | server.js:285-287 | setting the averages adds no team |
| `Balancer.Target` | server.js:268-279 | the target is an index of an existing team |
| `Balancer.Prefers` | server.js:271-278 | one team beats another when it has fewer players, or as many and a lower total rating; `TargetIsFirstBest` states the target it yields |
| `Balancer.TargetIsFirstBest` | server.js:268-279 | no team has fewer players than the target, or as many players and a lower total rating; every earlier team is worse than the target in exactly that order |
| `Balancer.DraftFits` | server.js:272 | `teamsSorted[0]` always exists: with no team, no player is left to draft |
| `Balancer.BalanceTeams` | server.js:242-290 | the three loops over the team array compute `BalancedTeams` |
| `Balancer.BalancedTeams` | server.js:242-290 | what `balanceTeams` returns, as placement, draft and averages in turn; `BalancedShape`, `BalancedConserves`, `PreAssignedLands`, `DraftOrder` and `EvenWithoutPreAssignment` state its properties |
| `Balancer.PlacePreAssigned` | server.js:256-261 | the first `forEach` leaves the team array equal to `PlaceAssigned` of its old contents |
| `Balancer.DraftSorted` | server.js:267-282 | the second `forEach` leaves the team array equal to `Draft` of its old contents |
| `Balancer.SetAverages` | server.js:285-287 | the last `forEach` leaves the team array equal to `WithAverages` of its old contents |
| `Balancer.PlaceKeepsNumbers` | server.js:256-261 | placement keeps each team's number |
| `Balancer.DraftKeepsNumbers` | server.js:267-282 | drafting keeps each team's number |
| `Balancer.BalancedShape` | server.js:243-249 | `floor(n / teamSize)` teams numbered 1, 2, … in order, each with `avgMMR` the rounded mean of its members (NaN when the team is empty) |
| `Balancer.FlattenJoin` | server.js:259 | a `push` onto one team adds exactly that player to the teams' players |
| `Balancer.PlaceConserves` | server.js:256-261 | placement adds exactly the pre-assigned players whose team exists |
| `Balancer.PlaceStep` | server.js:256-261 | one more pre-assigned player is pushed onto its team, and counted as in range, exactly when that team exists; otherwise nothing changes |
| `Balancer.DraftStep` | server.js:267-282 | each drafted player joins the target team of that moment |
| `Balancer.DraftConserves` | server.js:267-282 | drafting adds every drafted player exactly once |
| `Balancer.FlattenSamePlayers` | server.js:285-287 | teams with the same members have the same players |
| `Balancer.FlattenEmptyTeams` | server.js:246-249 | the new teams hold no player |
| `Balancer.WithAveragesFlatten` | server.js:285-287 | setting the averages moves no player |
| `Balancer.BalancedConserves` | server.js:242-290 | the teams hold the in-range pre-assigned players and all unassigned players, each as often as given |
| `Balancer.UnassignedPlacedOnce` | server.js:253 | every unassigned player is in the teams exactly as often as among the players |
| `Balancer.OutOfRangeDropped` | server.js:257-260 | a pre-assigned player whose team number is not in `1..numTeams` is in no team |
| `Balancer.PlaceGrows` | server.js:259 | placement only adds players to a team |
| `Balancer.PlaceSeats` | server.js:256-261 | a pre-assigned player whose team exists is placed in that team |
| `Balancer.DraftGrows` | server.js:281 | drafting only adds players to a team |
| `Balancer.PreAssignedLands` | server.js:256-261 | a player pre-assigned to team `k`, `1 <= k <= numTeams`, is in team `k` of the result |
| `Balancer.DraftOrder` | server.js:264-281 | players are drafted in non-increasing rating order, and each joins the target team of that moment, characterised as in `TargetIsFirstBest` |
| `Balancer.DraftLevels` | server.js:267-282 | if team sizes differ by at most one before the draft, they still do after it |
| `Balancer.SizesAtLeast` | server.js:267-282 | teams of at least `lo` players, one of them larger, hold more than `lo · numTeams` players |
| `Balancer.SizesAtLeastAll` | server.js:267-282 | teams of at least `lo` players hold at least `lo · numTeams` players |
| `Balancer.SizesAtMost` | server.js:267-282 | teams of at most `hi` players, one of them smaller, hold fewer than `hi · numTeams` players |
| `Balancer.SizesAtMostAll` | server.js:267-282 | teams of at most `hi` players hold at most `hi · numTeams` players |
| `Balancer.LevelFull` | server.js:267-282 | level teams holding `size · numTeams` players all hold exactly `size` |
| `Balancer.BalancedIsDraft` | server.js:242-290 | without pre-assignment, each balanced team holds the players the draft of all sorted players into empty teams gives it |
| `Balancer.EvenWithoutPreAssignment` | server.js:242-290 | without pre-assignment, team sizes differ by at most one, and when `teamSize` divides `n` every team has exactly `teamSize` players |
| `Balancer.EvenFull` | server.js:242-290 | level teams without pre-assignment, when `teamSize` divides `n`, each hold exactly `teamSize` players |
| `RandomMode.ChunkFits` | server.js:300 | the slice for team `i` lies inside the shuffled players |
| `RandomMode.Chunk` | server.js:298-302 | the team built in round `i`: number `i + 1`, the `slice`, and the average over `teamSize`; `ChunkedShape` states its shape |
| `RandomMode.ChunkedTeams` | server.js:297-304 | the teams of every round in order; `ChunkedShape`, `FlattenChunks` and `RandomConserves` state its properties |
| `RandomMode.RandomTeams` | server.js:292-307 | the loop returns the shuffle cut into consecutive teams (`ChunkedTeams`) |
| `RandomMode.CutTeams` | server.js:297-304 | the `for` loop returns exactly the chunked teams of the shuffle |
| `RandomMode.ChunkAt` | server.js:298-302 | a team numbered `i + 1` holding the slice for team `i` and its rounded mean is chunk `i` |
| `RandomMode.ChunkedTeamsAt` | server.js:297-304 | teams equal to each chunk in turn are the chunked teams |
| `RandomMode.ChunkedShape` | server.js:295-304 | `floor(n / teamSize)` teams numbered from 1; team `i` is exactly the shuffled players from `i · teamSize` up to `(i + 1) · teamSize`, so `teamSize` of them; its average is their rounded mean |
| `RandomMode.FlattenChunksPrefix` | server.js:297-304 | the first `j` teams, read in order, are the first `j · teamSize` shuffled players |
| `RandomMode.FlattenChunks` | server.js:297-304 | read in order, the teams are the shuffle without its trailing `n % teamSize` players |
| `RandomMode.RandomConserves` | server.js:292-307 | the teams hold `n - n % teamSize` of the players, none more often than given, and all of them when `teamSize` divides `n` |
| `Generation.KeptFits` | server.js:157-176 | the pool passed to `balanceTeams` is a multiple of `teamSize`, and it has at least one team unless it is empty |
| `Generation.GenerateTeams` | server.js:154-180 | trimming, then the mode's team builder on the kept players; `TeamsFromKept`, `RemovedNotInTeams` and `DivisibleFillsTeams` state its properties |
| `Generation.TeamsFromKept` | server.js:154-176 | every player in a generated team is one of the players trimming kept |
| `Generation.RemovedNotInTeams` | server.js:154-180 | with distinct registrations, no removed player is in any generated team |
| `Generation.DivisibleFillsTeams` | server.js:157-176 | when `teamSize` divides `n`: no player is removed and there are `n / teamSize` teams of exactly `teamSize` players; always in random mode, and in balanced mode when nobody is pre-assigned |
| `Ledger.IsRegisteredIgnoresCase` | server.js:90 | the exact comparison adds nothing: an id counts as registered exactly when some registration equals it case-insensitively |
| `Ledger.IsRegistered` | server.js:90 | the `some` test with the exact and the case-folded comparison; `IsRegisteredIgnoresCase` reduces it to case-insensitive equality |
| `Ledger.DuplicateExample` | server.js:90 | "Foo" counts as registered when "foo" is |
| `Ledger.FindIndex` | server.js:198-200 | `findIndex` and `find` select the first registration whose id matches case-insensitively, or none exactly when none matches |
| `Ledger.DistinctIdsDistinct` | server.js:90 | registrations with distinct case-folded ids are pairwise distinct |
| `Ledger.DistinctIdsAppend` | server.js:90-106 | appending an id nobody has keeps the ids distinct |
| `Ledger.DistinctIdsRemoveAt` | server.js:206 | a splice keeps the ids distinct |
| `Ledger.Tournament.Create` | server.js:21-42 | the stored record holds the given fields, no players or teams, status open, and is valid |
| `Ledger.Tournament.Register` | server.js:82-110 | closed, full, duplicate, unknown account and failed lookup are refused in that order and leave the registrations unchanged; otherwise exactly one entry with the looked-up rating and no pre-assignment is appended; capacity and distinct ids are kept |
| `Ledger.Tournament.Admits` | server.js:82-92 | the three guards before the rating lookup: open, below capacity, id not registered; `Register`'s `ensures` uses it |
| `Ledger.Tournament.RemovePlayer` | server.js:194-207 | refused while closed or when no id matches, with no change; otherwise the first case-insensitive match is returned and removed, the others stay in order |
| `Ledger.Tournament.AssignPlayer` | server.js:220-239 | refused as removal is; otherwise only the matched player's `preAssignedTeam` changes, set to the given slot or deleted |
| `Ledger.Tournament.Generate` | server.js:154-180 | stores exactly the teams and removed players of `GenerateTeams`, sets the status to generated, stays valid, and no removed player is in a team |
| `Ledger.Tournament.UpdateTeams` | server.js:350-351 | the teams are replaced by the given ones and the status becomes generated |
| `Views.PublicTournamentsMembers` | server.js:45-56 | a listing is in the list exactly when it is the listing of a public open tournament, and the list is no longer than the store |
| `Views.PublicTournamentsAll` | server.js:45-56 | when every tournament is public and open, the list holds all their listings in store order |
| `Views.PublicTournamentsOne` | server.js:45-56 | a single tournament gives its listing when it is public and open, and nothing otherwise |
| `Views.PublicTournamentsAppend` | server.js:45-56 | the list of two stores in a row is the first list followed by the second: store order is kept and each listed tournament gives exactly one entry |
| `Views.FindByCode` | server.js:63-69 | none exactly when no code equals the upper-cased code; otherwise the id of the first tournament with that code |
| `Views.PublicTournaments` | server.js:45-56 | the `filter` and `map` of the public list; `PublicTournamentsMembers`, `PublicTournamentsOne`, `PublicTournamentsAppend` and `PublicTournamentsAll` state what it returns |
| `Views.Listed` | server.js:46 | the filter `t.isPublic && t.status === 'open'`; `PublicTournamentsMembers` and `PublicTournamentsOne` use it |
| `Views.ListingOf` | server.js:47-56 | the map to the eight listed fields, `currentPlayers` being the number of registrations; `PublicTournamentsOne` uses it |
| `Views.EntryOf` | server.js:321-325 | a registration reduced to display name, Epic id and timestamp; `EntriesIgnoreRatings` states that it drops the rating |
| `Views.Entries` | server.js:321-325 | the `map` of `EntryOf` over the registrations, in order; `EntriesIgnoreRatings` |
| `Views.MemberOf` | server.js:330-333 | a team member reduced to display name and Epic id; `PublicTeamsIgnoreRatings` |
| `Views.PublicTeams` | server.js:327-333 | the `map` over teams that keeps number and average and redacts the members; `PublicTeamsIgnoreRatings` and `ViewsShowSoloRatings` |
| `Views.PublicView` | server.js:319-335 | the reduced view as written; `PublicViewHidesRegisteredRatings`, `PublicViewShowsRemovedRatings` and `ViewsShowSoloRatings` state what it shows |
| `Views.RedactedView` | server.js:319-335 | that view with the excluded players redacted too; `RedactedViewHidesRatings` and `ViewsShowSoloRatings` state what it shows |
| `Views.EntriesIgnoreRatings` | server.js:321-325 | redacted registrations do not depend on ratings or pre-assignments |
| `Views.PublicTeamsIgnoreRatings` | server.js:326-334 | redacted teams with the same averages do not depend on their members' ratings |
| `Views.PublicViewHidesRegisteredRatings` | server.js:319-335 | as written, the reduced view hides the ratings of registered players and team members, given equal team averages |
| `Views.PublicViewShowsRemovedRatings` | server.js:320 | as written, two tournaments that differ only in an excluded player's rating have different reduced views, and the view shows that rating |
| `Views.RedactedViewHidesRatings` | server.js:319-335 | with the excluded players redacted too, tournaments that differ only in ratings and pre-assignments, with the same team averages, have the same view |
| `Views.ViewsShowSoloRatings` | server.js:326-334 | the team averages copied by `...t` are computed from the members' ratings (server.js:286, 302), so a team of one shows its member's rating in both views, and two tournaments differing only in that rating look different |
| `Views.SoloMean` | server.js:286 | the average of a single player is that player's rating |

## Left out

- HTTP routing, status codes and the 404 for an unknown tournament id are not modelled. Each handler that changes a tournament is a method on one `Tournament`; the list, the code lookup and the view are functions in `Views`. The store (a `Map`) is a sequence of tournaments in insertion order.
- `verifyPlayer` is not modelled: it is a network call to the rating service. Its outcome is a `Lookup` parameter (a rating, not found, or failed). The 403 demo fallback with a random rating is a `Found` outcome.
- `generateCode` and `Date.now()` are not modelled. The ids, codes and timestamps they produce are parameters.
- The distribution of `Math.random()` is not modelled. The trim draws are valid indices and the shuffle is a full draw, so any rearrangement is possible; how likely each one is, the model does not say.
- The `await` between the register guards and the `push` is not modelled: the model cannot express concurrent requests, so each handler runs atomically.
- Ratings are natural numbers. A fractional or negative rating from the rating service is not modelled.
- The outlier comparison is exact. The source compares floating-point distances to a floating-point mean, so rounding could break a near-tie differently.
- `Ledger.Tournament.Generate`: requires `teamSize >= 1`. Other team sizes are not modelled. A NaN team size (for instance `parseInt(undefined)` when the create request omits it) makes the remainder and the team count NaN: no player is trimmed, no team is built, random mode returns none and balanced mode throws at `teamsSorted[0]` as soon as an unassigned player is left. A negative team size also builds no team, with the same two outcomes. A team size of 0 with at least one registration makes the team count infinite: balanced mode throws a `RangeError` in `Array.from` and the random loop pushes a new team each round until memory runs out.
- `maxPlayers` is an integer. A NaN from `parseInt` would make the capacity test never refuse; the model does not cover that case.
- `isPublic` is a `bool`. The source stores whatever JSON value the request carried and the list tests its truthiness, so a string such as "false" gets a tournament listed; the model does not cover non-boolean values.
- `balanceMode` is the two-valued `BalanceMode`. The source stores the raw string and echoes it in the listing and the view; the model keeps only which policy it selects ("balanced" or anything else), so `Listing` and `View` do not show the string that was sent.
- The `isCreator` test of the view handler is not modelled: the full record and the reduced view are given separately, and which one a request gets depends only on its query string.
- The team averages stay in the reduced view, as `{ ...t }` keeps them; the hiding lemmas assume equal team averages, and `Views.ViewsShowSoloRatings` shows what the averages reveal.
- `preAssignedTeam` is taken as the `Slot` that `parseInt` produced: absent, a number or NaN. The parsing itself is not modelled.
- `Records.Lower`, `Records.Upper`: fold ASCII letters only, where `toLowerCase` and `toUpperCase` map all of Unicode; ids such as "Ä" and "ä" match in the source but not in the model, because Unicode case mapping tables are not modelled.
- `removedPlayers` is `[]` before the first generation, where the source leaves the property undefined.
- The update-teams handler accepts any JSON body; the model accepts only a sequence of teams.
- The commented-out test-data initialiser is not live code and is not modelled.
- `Balancer.BalancedTeams`: is given the precondition that some team exists unless every player is pre-assigned. Without a team, `teamsSorted[0]` is undefined and the source throws. After trimming this case cannot arise (`Generation.KeptFits`).

## Findings

| source | as written | input that shows it | evidently intended | confidence | as-written member | corrected member |
|---|---|---|---|---|---|---|
| server.js:319-335 | the reduced view copies the whole record with `{ ...tournament }` and redacts only `registrations` and `teams`, so `removedPlayers` keeps every excluded player's `mmr` and `preAssignedTeam` | a generated tournament with 5 registrations and teams of 2: the excluded player's rating is in the view | the ratings are hidden from the reduced view, as the comment at server.js:318 says, so excluded players are redacted like registrations | medium, not executed | `Views.PublicViewShowsRemovedRatings` | `Views.RedactedViewHidesRatings` |
