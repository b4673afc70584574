# Verified model of the library system

A Dafny model of the stateful parts of a Go library-management system, with proofs of what they keep over whole
runs: the two-level rate limiter of the gateway, the category hierarchy and the book and category repositories
behind a Redis cache, user accounts with their session tokens, and the page arithmetic of the list endpoints.

## How the model is built

- **Objects and specifications.** What the Go code changes in place is a class here (`TokenBucket` and
  `RateLimiter`, `Repository`, `CategoryService`, `BookService`, `UserStore`, `AuthService`, `UserService`,
  `BookFilter`). Each method is written as the code is and proved equal to a function on a value that is the
  object's whole state. The theorems are about those functions and about runs of them.
- **The outside world.** In `CachedTable`, each call to the database or to Redis consumes one `Turn` of a script: how long
  the call took, and whether the database, a cache read, a cache write or a cache delete fails. A theorem
  over every script covers every timing and every failure. In `Users` a request happens at one instant and `Faults`
  says, call by call, what fails. Clocks never run backwards.
- **Database and cache.** A table is a map from ids to live rows with its unique indexes (in `CachedTable` these also cover
  soft-deleted rows); saving writes the whole row and inserts it when its id is not live; a query for one row
  takes the first in id order. The cache is a map from keys to a value and an expiry. UUIDs are natural numbers.
- **Tokens.** A signed access token is its claims; its signature is not modelled. A newly generated refresh token is assumed to
  differ from all earlier ones. Password checks are given as the set of hashes that match.
- **Requests** are serialised, except in `Staleness`, in `Overlaps`, in `Profiles.AccountsAreFreshEnough`, and in
  `Sessions.OverlappedSaveRevivesIff` and `Sessions.OverlappingRefreshes`.

## What the proofs found

- `RateLimits.SweepFiresOnlyWithoutBurst`: the cleanup of idle buckets can only ever drop a bucket when the per-address burst is 0.
  With any other burst no bucket is exactly full between requests, so the address map only grows.
- `CachedTable.StaleNameIffRenamed`: an entry under a name or ISBN is wrong exactly after a rename away from it, because
  an update drops only the new name's key.
- `StaleParents.HierarchyStaysForest`: whatever fails, serialised requests keep the categories a forest exactly as long as every
  parent that is written exists in the table and is not below its category there. The code ignores failed deletions from the
  cache, so this can fail: a move can be let through by an old chain of parents (`StaleParents.FailedDeletesMakeCycle`), a
  category can be created under one that is gone (`StaleParents.FailedDeletesLeaveDanglingParent`), and an update that names
  no parent writes the cached one back. `StaleParents.MoveKeepsForestIff` and `CreationKeepsForestIff` tell when from the table and
  the cache before the request; when nothing moved or removed stays cached, it never does. The repository's
  `README.md:39` says that cycles are prevented.
- `Overlaps.OverlappingMovesKeepForestIff`: two moves that both run their checks before either saves spoil the forest exactly
  when each of the two new parents is the other's category or below it. `Overlaps.UpdateMeetsDeletionIff` and
  `CreationMeetsDeletionIff`: an overlapping deletion does exactly when it removes the parent being written.
  `README.md:452` admits races.
- `Staleness.RowStaleIffChangedWhileReading`: with overlapping requests whose invalidations succeed, a cached row is out of date
  exactly when the row changed between the database read and the cache write that put it there.
- `Sessions.OverlappedSaveRevivesIff`: a refresh token that was rotated away comes back when a profile update or a password change
  saves an account that it had read from the database with the token, and not when it had read it otherwise.
  `Sessions.OverlappingRefreshes`: two overlapping refreshes with one token are both granted, and only the last new token counts.
- `StaleParents.EmptyUpdateLosslessIff`, `Books.EmptyModifyLosslessIff`: an update that names nothing writes an outdated cached row
  back over the table's, which a failed deletion from the cache can leave behind.
- `Profiles.EmptyUpdateLosslessIff`, `Profiles.PasswordChangeNeedsMiss`: an account that is updated while it is cached loses its
  password hash and refresh token, and a cached account cannot change its password.
- `Profiles.AccountsAreFreshEnough`, `Profiles.SharedPrefixServesOtherAccount`, `Profiles.UsernameTakesAddress`: a cached account is
  the right answer to a lookup exactly when it has the e-mail address, username or id asked for. The three lookups share one key
  prefix, so an account whose username is an e-mail address is served to lookups by that address, whether another account
  has the address or none does; in the second case a registration with it is refused as taken.
- `Categories.UpdateCategoryEffect`, `Books.ModifyEffect`: a new name or ISBN held by a soft-deleted row passes the check and then
  fails with an internal error, because the unique index covers such rows and the check does not.
- `Paging.OffsetWrapsAround`: a large page number makes the offset negative.

## Files

| file | content |
|---|---|
| `TokenBucket.dfy` | token buckets: refill, the greedy rule, windows |
| `RateLimiter.dfy` | the limiter, its runs, its object |
| `Shared.dfy` | options, lookups, cache entries |
| `CachedTable.dfy`, `Repository.dfy` | the cached repository of books and categories, and its object |
| `Staleness.dfy` | read-throughs interleaved with writers |
| `Forest.dfy` | parent maps, the cycle check, forests |
| `Lookups.dfy` | what lookups find over any cache |
| `Categories.dfy`, `CategoryService.dfy` | the category service and its object |
| `StaleParents.dfy`, `Overlaps.dfy` | when failed invalidations and overlapping requests spoil the forest |
| `Books.dfy` | the book service and its object |
| `Users.dfy`, `UserServices.dfy` | accounts and sessions, and their objects |
| `AccountEffects.dfy` | what each account operation does, column by column |
| `Sessions.dfy`, `TokenLives.dfy`, `TokenCleanup.dfy`, `Blacklist.dfy`, `Profiles.dfy` | theorems about accounts and sessions |
| `Paging.dfy` | page arithmetic |

`dafny verify dfyconfig.toml` checks the whole project.

## Model

| member | source | states |
|---|---|---|
| TokenBuckets.LazyRefillIsContinuous | pkg/middleware/ratelimit.go:82-86 | refilling a bucket at any intermediate instants before its next use gives the same tokens as one refill |
| TokenBuckets.OfferKeepsSound | pkg/middleware/ratelimit.go:55-59 | refill and spending keep the tokens between 0 and the capacity |
| TokenBuckets.OfferMeans | pkg/middleware/ratelimit.go:55-59 | an arrival leaves the bucket with its tokens and rate more for every second, up to the capacity, less one when it is served |
| TokenBuckets.ServedIff | pkg/middleware/ratelimit.go:74-86 | an arrival is served if and only if the capacity is at least 1 and the tokens plus rate times the time since the last use are |
| TokenBuckets.FundableIffConforms | pkg/middleware/ratelimit.go:74-86 | a full bucket can pay for a choice of arrivals if and only if every window serves at most capacity plus rate times length |
| TokenBuckets.GreedyBeatsFundable | pkg/middleware/ratelimit.go:55-59 | from any bucket, the code's rule has at every instant admitted at least as many as any choice the bucket could pay for |
| TokenBuckets.GreedyIsOptimal | pkg/middleware/ratelimit.go:74-86 | from a full bucket, the rule meets the window contract and admits at least as many, at every instant, as any schedule that meets it |
| TokenBuckets.WindowBound | pkg/middleware/ratelimit.go:82-86 | from any bucket, any time window serves at most capacity plus rate times length, written out |
| RateLimits.AfterWellFormed | pkg/middleware/ratelimit.go:49-102 | over any run, every bucket keeps its tokens within its capacity, and every address bucket the configured burst and rate |
| RateLimits.CleanupIsUnobservable | pkg/middleware/ratelimit.go:88-102 | from any well-formed state, two runs with the same arrivals and different sweeps give the same answers |
| RateLimits.Decomposition | pkg/middleware/ratelimit.go:49-80 | the answers are those of a stand-alone global bucket fed all arrivals and, per address, a stand-alone bucket fed that address's arrivals that passed it |
| RateLimits.RateIsBounded | pkg/middleware/ratelimit.go:49-86 | over any run and any window, admissions per address, and admissions plus per-address refusals overall, stay within burst plus rate times length, written out |
| RateLimits.AllowMeans | pkg/middleware/ratelimit.go:49-80 | the verdict and every bucket after a request: the global token is tried first, a new address starts with its full burst, and only the two buckets reached change |
| RateLimits.AdmittedIff | pkg/middleware/ratelimit.go:49-86 | a request is admitted if and only if the global bucket and then the address's own can hold a token and have one saved or earned since their last use |
| RateLimits.NewLimiterIsBounded | pkg/middleware/ratelimit.go:32-47 | the four numbers a limiter is made with bound its runs, each in its place, and a first request passes if and only if both bursts are at least 1 |
| RateLimits.SweepDropsExactly | pkg/middleware/ratelimit.go:88-102 | a sweep drops the buckets that are full and unused for more than 600 seconds and touches nothing else |
| RateLimits.SweepFiresOnlyWithoutBurst | pkg/middleware/ratelimit.go:96-98 | a run can reach a state in which a sweep drops a bucket if and only if the per-address burst is 0 and the global burst is not |
| RateLimits.RateLimiter.constructor | pkg/middleware/ratelimit.go:32-47 | a new limiter has a full global bucket and no address buckets |
| RateLimits.RateLimiter.RefillBucket | pkg/middleware/ratelimit.go:82-86 | updates one bucket in place to its refilled value, which `OfferMeans` writes out |
| RateLimits.RateLimiter.AllowRequest | pkg/middleware/ratelimit.go:49-80 | a request takes a global token if there is one and then one of its address, whose bucket is made full on first use; the answer says which was missing; buckets stay unshared |
| RateLimits.RateLimiter.SweepIdle | pkg/middleware/ratelimit.go:94-99 | deletes exactly the buckets that are full and idle for over ten minutes |
| Repositories.Repository.Get | pkg/cache/redis.go:72-86 | returns the entry's value exactly when the call succeeds and the entry has not run out |
| Repositories.Repository.Set | pkg/cache/redis.go:58-70 | replaces one entry, with an expiry counted from the time of the call |
| Repositories.Repository.Delete | pkg/cache/redis.go:88-95 | removes one entry when the call succeeds |
| Repositories.Repository.Create | services/category-service/internal/repository/category.repo.go:43-56 | a row is inserted when its id and its unique key are free in live and soft-deleted rows and the database answers, and the list key is dropped; else nothing changes |
| Repositories.Repository.GetByID | services/category-service/internal/repository/category.repo.go:58-83 | a readable, unexpired entry under the id key, else the live row, which is then cached under that key |
| Repositories.Repository.GetByName | services/category-service/internal/repository/category.repo.go:85-110 | a readable, unexpired entry under the name key, else the live row with that name, which is then cached under that key |
| Repositories.Repository.Update | services/category-service/internal/repository/category.repo.go:112-132 | when the new name is free the whole row is saved, then the keys of the id, the new name and the list are dropped, each if its call succeeds; the old name's key is not |
| Repositories.Repository.Drop | services/book-service/internal/repository/book.repository.go:212-230 | the row is soft-deleted, then the keys of the id, the loaded name and the list are dropped, each if its call succeeds |
| CachedTable.IdKeysStayCoherent | services/category-service/internal/repository/category.repo.go:58-83 | over every serialised run whose invalidations succeed, each unexpired entry under an id equals the live row |
| CachedTable.CallsMean | pkg/cache/redis.go:58-95 | a call that fails changes nothing and says so; a written entry lasts 15 minutes; a write or deletion touches one entry |
| CachedTable.NameFreeIff | services/category-service/internal/repository/category.repo.go:43-56 | a name is free for an id if and only if no other row, live or soft-deleted, has it |
| CachedTable.GetByIDRefinesDirect | services/book-service/internal/repository/book.repository.go:81-114 | a cached lookup by id answers with the live row of that id or that there is none, or reports a database failure |
| CachedTable.GetByNameRefinesDirect | services/book-service/internal/repository/book.repository.go:116-149 | a cached lookup by the second key is wrong only about a key renamed away from, and never misses a row that exists |
| CachedTable.StaleNameIffRenamed | services/category-service/internal/repository/category.repo.go:166-173 | an unexpired entry under a name disagrees with the table if and only if a row was renamed away from the name after the entry was filled |
| CachedTable.NamesCoherentWithoutRenames | services/book-service/internal/repository/book.repository.go:182-189 | without renames, entries under the second key equal the table's rows |
| CachedTable.RenameLeavesStaleEntry | services/category-service/internal/repository/category.repo.go:112-132 | a three-step run after which a lookup by the old name is served a row that no longer has it |
| Lookups.GetByIDSees | services/category-service/internal/repository/category.repo.go:58-83 | over any cache, with all calls answering and nothing wrong running out midway, a lookup finds the entry that has not run out or else the table's row, and changes nothing about that |
| Staleness.StalenessIsBounded | services/book-service/internal/repository/book.repository.go:81-149 | with overlapping requests and failing invalidations, every cache hit is a database answer less than 15 minutes plus its read-through's duration old |
| Staleness.RowsAreFreshEnough | services/category-service/internal/repository/category.repo.go:58-110 | for books and categories, that answer was the table's own row for the same id, ISBN or name |
| Staleness.StaleIffChangedWhileReading | services/user-service/internal/repository/user.repo.go:59-84 | in any run whose writes are followed by successful invalidations, a hit is the present answer if and only if what its read-through read, for this query or another with the same key, is what the database still said to this query at the cache write |
| Staleness.RowStaleIffChangedWhileReading | services/book-service/internal/repository/book.repository.go:81-149 | the same for rows under id, ISBN and name keys: out of date if and only if the row changed between its read and its fill |
| Staleness.InvalidationCanBeOvertaken | services/category-service/internal/repository/category.repo.go:58-83 | such a run: every invalidation succeeds and an overlapping read-through still caches an old row |
| Staleness.LookupIsFetchThenFill | services/category-service/internal/repository/category.repo.go:58-83 | the serialised lookup is one run of the interleaved system |
| Forests.WalkMeans | services/category-service/internal/service/category.service.go:234-262 | on every parent map the walk ends, reports a cycle if and only if the child is reached, and a missing category if and only if the chain leaves the map before that |
| Forests.HangKeepsForestIff | services/category-service/internal/service/category.service.go:117-145 | a forest stays one under re-parenting if and only if the child is not reached from the new parent |
| Forests.TwoHangsKeepForestIff | services/category-service/internal/service/category.service.go:139-147 | two re-parentings, each allowed by the map before both, keep the forest unless each new parent is the other's category or below it |
| Forests.PutKeepsForestIff | services/category-service/internal/service/category.service.go:117-150 | whatever parent is written to an old or new node, the forest is kept if and only if the parent exists and is not below the node |
| Forests.PutAndRemove | services/category-service/internal/repository/category.repo.go:134-164 | a fitting parent is written and a childless node removed, in either order: the forest is kept if and only if the node is not that parent |
| Forests.RemoveLeafKeepsForest | services/category-service/internal/repository/category.repo.go:140-161 | removing a category without children keeps the forest |
| Forests.RootInReach | services/category-service/internal/service/category.service.go:117-145 | in a forest every chain ends at a root in fewer steps than there are categories |
| Forests.ForestCount | services/category-service/internal/repository/category.repo.go:220-230 | the roots and all categories' children count every category once |
| Categories.CheckWalksTable | services/category-service/internal/service/category.service.go:234-262 | when the cached parents agree with the table's, the cycle check computes the walk over the table, unless the database fails; nothing is asked of deletions or of the other cached columns |
| Categories.CreateCategoryEffect | services/category-service/internal/service/category.service.go:31-64 | over a coherent cache: a refused creation changes no row; a done one adds the requested row under a live parent and only if nothing speaks against it; with the database up and no stale entry under the name, the outcome for every case; the forest is kept |
| Categories.UpdateCategoryEffect | services/category-service/internal/service/category.service.go:92-153 | over a coherent cache: a refused update changes no row; a done one changes exactly the named fields of one row and only if nothing speaks against it; with the database up and no stale entry under the new name, the outcome for every case; the forest is kept whether or not this request's deletions from the cache succeed |
| Categories.DeleteCategoryEffect | services/category-service/internal/service/category.service.go:155-177 | over a coherent cache: a done deletion removes one live category without children or books, a refused one nothing; with the database up, the outcome for every case; the forest is kept whether or not this request's deletions from the cache succeed |
| Categories.ServeKeepsForest | services/category-service/internal/service/category.service.go:31-177 | from a state where the cached parents agree with the table's, every request keeps the forest, and the agreement lasts if and only if no moved or removed category stays in the cache |
| Categories.LandingDeletesDrop | services/category-service/internal/repository/category.repo.go:119-129 | a run whose deletions from the cache all succeed leaves no moved or removed category there |
| Categories.ChooseParentIff | services/category-service/internal/service/category.service.go:117-145 | the parent checks let a parent through if and only if nothing speaks against it, and then the result is a forest |
| Categories.MoveDoneIffForest | services/category-service/internal/service/category.service.go:117-150 | a live category is moved under a live one if and only if the result is a forest |
| Categories.EmptyUpdateIsLossless | services/category-service/internal/service/category.service.go:92-153 | over a coherent cache, an update that names nothing changes only the timestamp, and with the database up it is done |
| Overlaps.OverlappingMovesKeepForestIff | services/category-service/internal/service/category.service.go:117-150 | for any two moves that both check before either saves: which are let through, the result, and that it is a forest unless each new parent is the other's category or below it |
| Overlaps.InterleavedMovesMakeCycle | services/category-service/internal/service/category.service.go:139-147 | its smallest case: two overlapping moves of roots under each other are both accepted and close a loop |
| Overlaps.UpdateMeetsDeletionIff | services/category-service/internal/repository/category.repo.go:134-164 | an update and a deletion that both check before either writes, in either order of writing: the forest is kept unless both are carried out and the parent being written is the deleted category |
| Overlaps.CreationMeetsDeletionIff | services/category-service/internal/service/category.service.go:31-64 | the same for a creation and a deletion |
| StaleParents.HierarchyStaysForest | services/category-service/internal/service/category.service.go:31-177 | over any serialised run from a forest and an empty cache, whatever fails: the categories are a forest all along if and only if every parent written exists and is not below its category in the table; for calm requests, if and only if none spoils it by what it sees; always when nothing moved or removed stays cached; and then every parent is live, chains are bounded and the counts exact |
| StaleParents.ServeKeepsForestIff | services/category-service/internal/service/category.service.go:31-177 | one request, over any cache and whatever fails: the forest is kept if and only if every parent it writes exists in the table and is not below its category there |
| StaleParents.CalmRequestKeepsForestIff | services/category-service/internal/service/category.service.go:31-177 | one request over any cache with all calls answering: when it keeps the forest, told from the table and the cache before it |
| StaleParents.MoveKeepsForestIff | services/category-service/internal/service/category.service.go:117-150 | a move spoils the forest if and only if it can be saved, the new parent's chain as seen through the cache ends without coming to the category, and in the table it comes to it or the new parent is gone |
| StaleParents.KeptParentKeepsForestIff | services/category-service/internal/service/category.service.go:92-153 | an update that names no parent spoils the forest if and only if it goes through and the parent it saw does not fit the table |
| StaleParents.CreationKeepsForestIff | services/category-service/internal/service/category.service.go:37-54 | a creation under a category spoils the forest if and only if the category is gone from the table and still cached |
| StaleParents.UpdateWritesIntended | services/category-service/internal/service/category.service.go:92-153 | over any cache an update is done if and only if what it sees speaks for it, and it then writes the category it sees with the named fields replaced |
| StaleParents.CreateWritesIntended | services/category-service/internal/service/category.service.go:31-64 | over any cache a creation is done if and only if what it sees and the unique indexes allow it, and it then adds the requested row |
| StaleParents.EmptyUpdateLosslessIff | services/category-service/internal/service/category.service.go:92-153 | over any cache and whatever fails, an update that names nothing is lossless if and only if it is refused, or reads the category from the database, or the cached row agrees with the table's apart from the timestamp |
| StaleParents.FailedDeletesMakeCycle | services/category-service/internal/repository/category.repo.go:119-129 | four serialised requests that make a loop when the deletions from the cache fail, an error the code ignores |
| StaleParents.FailedDeletesLeaveDanglingParent | services/category-service/internal/repository/category.repo.go:151-161 | three serialised requests that create a category under one that is gone |
| CategoryServices.CategoryService.Create | services/category-service/internal/service/category.service.go:31-64 | a taken name, a malformed or missing parent, or a failed insert is refused in that order; else the category is inserted under the loaded parent |
| CategoryServices.CategoryService.CheckCycle | services/category-service/internal/service/category.service.go:237-261 | the recursive check stops in every state and reports a cycle, a missing category, a failure or none as the chain of cached or live parents gives it |
| CategoryServices.CategoryService.Update | services/category-service/internal/service/category.service.go:92-153 | the category is loaded, its new name and parent are checked in that order, and the named fields are replaced and saved; a refusal writes nothing |
| CategoryServices.CategoryService.Delete | services/category-service/internal/service/category.service.go:155-177 | the category is loaded twice, refused for children or books, and else removed with its keys |
| CategoryServices.CategoryService.GetChildren | services/category-service/internal/service/category.service.go:203-232 | lists each child in the table exactly once and changes no row |
| Books.ModifyEffect | services/book-service/internal/service/book.service.go:239-348 | over a coherent cache: a done update changes exactly the named columns of the table's row, with the rule for the counts, and only if nothing speaks against it; a refused one nothing; with the database up and no stale entry under the new ISBN, the outcome for every case |
| Books.EmptyModifyIsLossless | services/book-service/internal/service/book.service.go:239-348 | over a coherent cache, an update that names nothing changes only the timestamp |
| Books.ModifyWritesLoaded | services/book-service/internal/service/book.service.go:239-348 | over any cache and whatever fails: a done update writes the row it loaded, from the cache or the table, with exactly the named columns replaced |
| Books.EmptyModifyLosslessIff | services/book-service/internal/repository/book.repository.go:151-199 | over any cache and whatever fails, an update that names nothing is lossless if and only if it is refused, or reads the book from the database, or the cached row agrees with the table's apart from the timestamp |
| Books.AddEffect | services/book-service/internal/service/book.service.go:33-89 | over a coherent cache: a done creation adds one row with the requested fields and the requested number of copies, 1 if none, all available; a refused one nothing; with the database up and no stale entry under the ISBN, the outcome for every case |
| Books.DiscardEffect | services/book-service/internal/service/book.service.go:91-107 | over a coherent cache: a deletion removes the row or changes nothing, whether or not its own deletions from the cache succeed; with the database up it is done if and only if the book is live |
| Books.BookLookupsAfterAnyRun | services/book-service/internal/repository/book.repository.go:81-233 | after any run of book requests whose deletions from the cache succeed, lookups by id are exact and stale ISBN entries are exactly the renamed ones |
| Books.BookService.UpdateBook | services/book-service/internal/service/book.service.go:239-348 | the book is loaded, its new ISBN, its counts and its categories are checked in that order, and the named columns are replaced and saved; a refusal writes nothing |
| Books.BookService.CreateBook | services/book-service/internal/service/book.service.go:33-89 | a taken ISBN or bad categories are refused; else a row with the requested fields is inserted |
| Books.BookService.DeleteBook | services/book-service/internal/service/book.service.go:91-107 | the book is loaded twice and removed with its keys |
| Sessions.RunSafe | services/user-service/internal/repository/auth.repo.go:39-71 | over any run, no two accounts share a refresh token, a blank one is never accepted, and a spent one stays spent |
| Sessions.AcceptedIff | services/user-service/internal/repository/auth.repo.go:49-61 | a token is accepted as a user if and only if that user's row holds it and it has not run out |
| Sessions.IssuedTokenIsAccepted | services/user-service/internal/service/auth.service.go:64-92 | the refresh token a login or rotation returns is accepted exactly until the configured time has passed, as the user of the returned access token |
| Sessions.RetiredIsSpent | services/user-service/internal/service/auth.service.go:154-171 | after a stored rotation, a login or a revoking logout no row holds the old token |
| Sessions.RefreshTokensAreSingleUse | services/user-service/internal/service/auth.service.go:136-172 | a replaced or revoked refresh token is refused after every later run |
| Sessions.OneTokenPerUser | services/user-service/internal/service/auth.service.go:75-81 | at any moment of a run, two accepted tokens are the same token if and only if they are the same user's |
| Sessions.OverlappedSaveRevivesIff | services/user-service/internal/service/user.service.go:64-122 | when a load and a save of an account span other requests, as in a profile update or a password change, a token spent by then is held and accepted again if and only if the save succeeds and the load had read the account from the database while it held the token |
| Sessions.RotationUndoneByUpdate | services/user-service/internal/repository/user.repo.go:154-155 | such a run with a profile update: after it the token that was rotated away is accepted and the one issued for it is not |
| Sessions.RotationUndoneByPasswordChange | services/user-service/internal/service/user.service.go:157-184 | such a run with a password change |
| Sessions.OverlappingRefreshes | services/user-service/internal/service/auth.service.go:136-172 | two refreshes with one token that both read its holder before either stores: both are granted, and the holder's one accepted token is the one stored last |
| TokenLives.TokenLivesIff | services/user-service/internal/repository/auth.repo.go:39-71 | over any serialised run, a live refresh token is accepted afterwards, as its account, if and only if no request of the run ended it and it has not run out |
| TokenLives.ServeEndsIff | services/user-service/internal/service/auth.service.go:48-199 | which requests end a token: a done update or password change of an account read from the cache, its deletion, a login to it, a stored refresh with the token, a logout with a valid access token of it, a cleanup after its expiry; all others leave it as it is |
| AccountEffects.LoginIff | services/user-service/internal/service/auth.service.go:48-92 | a login is granted exactly to the first account with that username or e-mail address, exactly for a matching password; the session's claims and expiry, and every column written |
| AccountEffects.RefreshIff | services/user-service/internal/service/auth.service.go:136-172 | a refresh is granted exactly to the holder of an unexpired token; the session's claims and expiry, and every column written |
| AccountEffects.AccessTokenLasts | pkg/middleware/auth.go:49-85 | a returned access token that is not blacklisted passes the service's check exactly until the configured time after its issue, in whole seconds |
| AccountEffects.LogoutMeans | services/user-service/internal/service/auth.service.go:174-199 | a logout refuses an invalid token, blacklists a valid one until its expiry and blanks the token of its user, and changes no other row, column or entry |
| AccountEffects.LookupMeans | services/user-service/internal/repository/user.repo.go:59-138 | a lookup's answer and what it caches: a live entry, or the first matching row, cached without its three secret columns for 15 minutes |
| AccountEffects.WritesMean | services/user-service/internal/repository/user.repo.go:45-57 | an insert or save is done if and only if the database answers and the names are free; the row as given is written, and a save drops the three keys of the row as saved and no other |
| AccountEffects.RemoveMeans | services/user-service/internal/repository/user.repo.go:171-191 | a deletion removes the loaded row and drops the three keys of it and no other |
| AccountEffects.TouchMeans | services/user-service/internal/repository/user.repo.go:232-245 | the login time is one column of one row, and one key is dropped |
| AccountEffects.StoreMeans | services/user-service/internal/repository/auth.repo.go:39-71 | storing a refresh token changes two columns of one row |
| AccountEffects.SweepMeans | services/user-service/internal/repository/auth.repo.go:99-114 | a cleanup blanks exactly the refresh tokens whose expiry is past |
| AccountEffects.ChangePasswordMeans | services/user-service/internal/service/user.service.go:157-184 | a password change's refusals in order, and the hash as the one column changed |
| TokenCleanup.CleanupIsTransparent | services/user-service/internal/repository/auth.repo.go:99-114 | cleanups inserted anywhere in a run change no reply, and afterwards no answer about a refresh token |
| Blacklist.BarredIffRefused | services/user-service/internal/service/auth.service.go:201-220 | a token is refused at every later time if and only if it has expired or its blacklist entry outlasts it |
| Blacklist.LogoutBarsIff | services/user-service/internal/service/auth.service.go:174-187 | a logout bars its token if and only if its entry is written, or the token has run out, or was barred before |
| Blacklist.LoggedOutStaysOut | services/user-service/internal/service/auth.service.go:174-199 | once logout has written the entry, the token is refused at every later time, through any later requests |
| Profiles.UpdateUserEffect | services/user-service/internal/service/user.service.go:64-122 | a refused update changes no row; a done one writes each named profile column and leaves the others, all nine spelled out, and the secret columns of the loaded row |
| Profiles.RegisterEffect | services/user-service/internal/service/auth.service.go:94-134 | a registration adds one row with the given profile and hash and no refresh token, under an unused e-mail address and username, or changes nothing |
| Profiles.DeleteUserEffect | services/user-service/internal/service/user.service.go:124-131 | a deletion removes one live row, or changes nothing |
| Profiles.UpdateUserOutcome | services/user-service/internal/service/user.service.go:64-122 | with the database up, the outcome of an update for every case, by what is seen under the new address and username |
| Profiles.RegisterOutcome | services/user-service/internal/service/auth.service.go:94-134 | with the database up, the outcome of a registration for every case; an address or username is taken as long as an entry under it lasts |
| Profiles.DeleteUserOutcome | services/user-service/internal/service/user.service.go:124-131 | with the database up, a deletion is done if and only if the account is live |
| Profiles.EmptyUpdateLosslessIff | services/user-service/internal/service/user.service.go:64-122 | after any run whose deletions from the cache succeed, an update that names nothing leaves the rows unchanged if and only if the account is not cached or has no secrets |
| Profiles.EmptyUpdateWritesBack | services/user-service/internal/entity/model/user.go:11-25 | such an update writes back the row on a miss and the row without its secrets on a hit |
| Profiles.HitLocksAccountOut | services/user-service/internal/repository/user.repo.go:154-169 | after the loss neither a refresh token nor a password is accepted for the account |
| Profiles.LookUpThenUpdateLosesSecrets | services/user-service/internal/service/user.service.go:64-122 | a lookup by id and then an empty update within 15 minutes blank the password hash and the refresh token of any account |
| Profiles.PasswordChangeNeedsMiss | services/user-service/internal/service/user.service.go:157-184 | a password change is done if and only if the account is read from the database and the current password matches; it replaces the hash and nothing else |
| Profiles.AccountsAreFreshEnough | services/user-service/internal/repository/user.repo.go:59-138 | bounded staleness for accounts; the account served is what the database would have given to this lookup if and only if it has the address, username or id asked for |
| Profiles.LookupIsFetchThenFill | services/user-service/internal/repository/user.repo.go:59-138 | a lookup of an account is a run of the system that the staleness bound is about |
| Profiles.SharedPrefixServesOtherAccount | services/user-service/internal/repository/user.repo.go:86-138 | a username equal to another account's e-mail address gets the wrong account served |
| Profiles.UsernameTakesAddress | services/user-service/internal/service/auth.service.go:94-98 | a username equal to an address that no account has gets its account served for that address, and a registration with it refused |
| Profiles.AnswersWhatMatches | services/user-service/internal/repository/user.repo.go:86-138 | two lookups with one answer: the second gives the first one's account if and only if that account matches it |
| UserServices.UserStore.Lookup | services/user-service/internal/repository/user.repo.go:59-138 | a readable, unexpired entry under the shared prefix, without its secrets; else the database's row with them, which is then cached without them |
| UserServices.UserStore.Create | services/user-service/internal/repository/user.repo.go:45-57 | the row is inserted when its id is new and no other row has its address or username |
| UserServices.UserStore.Update | services/user-service/internal/repository/user.repo.go:154-169 | when no other row has its address or username the whole row is written, secrets included, and the keys of the id, the new address and the new username are dropped where the calls succeed |
| UserServices.UserStore.Delete | services/user-service/internal/repository/user.repo.go:171-191 | the row is loaded and removed, and the three keys of the loaded row are dropped where the calls succeed |
| UserServices.UserStore.UpdateLastLogin | services/user-service/internal/repository/user.repo.go:232-245 | one column of one live row is set, and the id key is dropped if its call succeeds |
| UserServices.UserStore.StoreRefreshToken | services/user-service/internal/repository/auth.repo.go:39-47 | the refresh token and expiry of one live row are replaced, and nothing else |
| UserServices.UserStore.GetUserByRefreshToken | services/user-service/internal/repository/auth.repo.go:49-61 | the first user holding the token with an expiry still to come |
| UserServices.UserStore.StoreTokenInBlacklist | services/user-service/internal/repository/auth.repo.go:73-81 | the entry runs out the given time after it is written; an unwritable cache is left as it was |
| UserServices.UserStore.IsTokenBlacklisted | services/user-service/internal/repository/auth.repo.go:83-97 | true exactly for a readable entry that has not run out |
| UserServices.UserStore.CleanupExpiredTokens | services/user-service/internal/repository/auth.repo.go:99-114 | blanks every refresh token that has expired |
| UserServices.AuthService.Login | services/user-service/internal/service/auth.service.go:48-92 | bad credentials change nothing; else the login time and a new refresh token are stored and returned with an access token, or the login fails when the token cannot be stored |
| UserServices.AuthService.RefreshToken | services/user-service/internal/service/auth.service.go:136-172 | the holder of an unexpired token gets an access token and, if it can be stored, a new refresh token in place of the old one; anyone else is refused |
| UserServices.AuthService.Logout | services/user-service/internal/service/auth.service.go:174-199 | a valid access token is blacklisted for the time it has left and its user's refresh token blanked; a failure of either is ignored |
| UserServices.AuthService.ValidateToken | services/user-service/internal/service/auth.service.go:201-220 | the claims exactly when the token is neither blacklisted nor expired |
| UserServices.AuthService.Register | services/user-service/internal/service/auth.service.go:94-134 | a registration is refused for an address or username that a lookup finds, and else inserts one member without a refresh token |
| UserServices.UserService.UpdateUser | services/user-service/internal/service/user.service.go:64-122 | the account is loaded, a changed address and username are looked up in that order, and the loaded row with the named profile fields replaced is written |
| UserServices.UserService.ChangePassword | services/user-service/internal/service/user.service.go:157-184 | missing or short passwords, a missing account and a wrong current password are refused in that order; else the loaded row is written with the new hash |
| UserServices.UserService.DeleteUser | services/user-service/internal/service/user.service.go:124-131 | the account is loaded and removed, or the request is refused |
| Paging.PagesPartition | services/book-service/internal/entity/dto/book.dto.go:55-74 | pages 1 to the page count give every row exactly once, no fewer pages do, and later pages are empty |
| Paging.PageIs | services/book-service/internal/entity/dto/book.dto.go:72-74 | row i of a page is row (page - 1) * limit + i of the result, and a page is full unless the rows run out |
| Paging.WrapMeans | services/book-service/internal/entity/dto/book.dto.go:72-74 | 64-bit wrapping stays in range and is off by a multiple of 2 to the 64 |
| Paging.CountsAgree | pkg/utils/response.go:52-56 | the rounded-up page count equals the quotient-and-remainder one |
| Paging.OffsetIsExact | services/book-service/internal/entity/dto/book.dto.go:72-74 | the 64-bit offset is the intended one if and only if that fits in 64 bits |
| Paging.OffsetWrapsAround | services/book-service/internal/entity/dto/book.dto.go:72-74 | a page number whose offset comes out negative |
| Paging.BookFilter.Validate | services/book-service/internal/entity/dto/book.dto.go:55-70 | page below 1 becomes 1, limit below 1 becomes 10 and above 100 becomes 100, an unknown status is dropped, and all else stays |
| Paging.ListRows | services/book-service/internal/service/book.service.go:109-131 | the requested page with the counts; when the offset fits in 64 bits, the page of the partition, and else what the database makes of a wrapped offset |
| Paging.PageCount | pkg/utils/response.go:52-56 | the helper's page count for every page size but 0: the number of pages for a positive one, the truncated quotient plus one for a remainder for a negative one |

## Left out

- HTTP and gRPC handlers, the gateway proxy, logging, recovery, configuration, health checks.
- Password hashing, JWT signing and parsing, UUID parsing and random generation: abstract values and a freshness assumption.
- RateLimits.Allow: tokens are reals; float64 rounding is not modelled.
- RateLimits.RateLimiter.AllowRequest: the mutex is not modelled; each request and each sweep is atomic.
- Blacklist.LoggedOutStaysOut: the time to live is kept exactly; any rounding of it inside the Redis client is not modelled, and the cache must answer when the token is validated, since the code treats an unreadable blacklist as empty.
- Users.StoreRefresh: expiries are kept exactly; rounding of timestamps by the database is not modelled.
- Users.Insert: soft-deleted accounts still hold their unique e-mail addresses and usernames in the database; a conflict with one is covered only as a database failure.
- Users.Register: the administrators' way of creating an account differs from registration only in its role and is not repeated.
- Book-category links: they are re-read on every lookup, and written partly outside the transaction; a failure while writing them counts as a failed save, and validating them with the category service is one given outcome.
- Paging.ListRows: stands for all list endpoints; filtering, sorting and pattern search are one fixed row sequence.
- A negative offset: what the database layer makes of it is a parameter of `Paging.ListRows`.
- Overlapping requests other than lookups with writers, two moves of categories, a deletion of a category with an update or a
  creation, a save of a loaded account with other account requests, and two refreshes.
- Running without a cache: every repository here has one.
- Whether the HTTP middleware consults the blacklist: it does not, and the logout results are about the auth service's own check.
- The cached list keys: they are deleted and never read.
