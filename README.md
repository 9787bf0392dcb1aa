# ToDos service core, modelled in Dafny

This project models the request-handling core of the ToDos web API: a small
service that stores to-do items (name, e-mail, date, done, plus a Guid id)
behind a generic repository, answers two queries (all items of one user
ordered by date, one item by id) and turns exceptions into JSON error
answers. The repository also holds a caching decorator over a distributed
cache, an Entity Framework repository, paging types and an API-key
middleware. These are modelled as written, but the service does not use
them: `ToDos.Api/Program.cs:15-19` registers only `CosmosDbRepository` as
the repository and `ExceptionHandlingMiddleware` as the one middleware, and
the Entity Framework registration in the extension files is commented out.

What is modelled, module by module:

- `Store` (store.dfy): the collection of stored items as a sequence in its
  natural order, with one record per non-empty id; filtering, lookup by id,
  replace-by-id and delete-by-id, with the lemmas that relate them.
- `Cosmos` (cosmos.dfy): `CosmosDbRepository`, a class whose `docs` field
  is the MongoDB collection. A save with the empty Guid inserts under a
  fresh id; any other save is a replace that silently does nothing when the
  id is not stored. Delete is find-and-delete and returns the record or null.
- `EntityFramework` (inmemory.dfy): `InmemoryRespository` over an Entity
  Framework set. Saving an existing record and deleting both go through
  LINQ `Single`, which throws unless exactly one record matches.
- `Caching` (caching.dfy): `CachingService` over a string cache whose
  entries carry an absolute expiry. Every failure is swallowed: a transport
  failure (`online == false`), an empty or undeserialisable entry, or a
  non-positive expiry. The default expiry is one hour.
- `CachedRepositories` (cached_repository.dfy): the `CachedRepository`
  decorator. Reads by id go through the cache, saves are written through to
  it, and, when the cache answers, every save and every delete that removed
  a record drops the owner's `user_todos:<email>` entry (for the
  Entities.ToDo class only; the Data.ToDo class drops nothing). The
  coherence invariant says that whatever the cache serves is what the store
  holds. Get-by-id keeps it. A save keeps it when the save reaches the
  store and the cache answers (or the record is new). A delete keeps it when
  the cache answers (or nothing was deleted). A save of an id that is not
  stored breaks it (see "## Findings").
- `Handlers` (handlers.dfy): `GetToDosQueryHandler`, which filters by e-mail
  and sorts stably by date, and `GetToDoByIdQueryHandler`, which calls
  `First()` on the id filter.
- `Paging` (paging.dfy): `PagedResult` page arithmetic and `PagedQuery`,
  whose `Skip` multiplies in C# 32-bit `int` arithmetic and whose
  `Validate` clamps the page and the page size.
- `Text`, `Http` (text.dfy, http.dfy): ordinal case-insensitive comparison,
  header and query collections, `PathString.StartsWithSegments`, claims
  principals, and the `HttpContext` the middleware reads and writes.
- `ApiKeys`, `Authentication` (auth.dfy): `ApiKeyAuthenticationService` and
  `ApiKeyAuthenticationMiddleware`.
- `ErrorHandling` (errors.dfy): `ExceptionHandlingMiddleware`, plus the
  pipeline from a by-id request for a missing id to its HTTP answer.
- `Guids` (guids.dfy): a Guid as a 128-bit number with `Empty == 0`, and its
  36-character "D" text form. The text form is proved injective, so cache
  keys of different ids never collide.

The repository's own tests expect a by-id request for a missing id to end
in NotFoundException and 404 (`ToDos.Tests/Handlers/GetToDoByIdQueryHandlerTests.cs:56-69`,
`ToDos.Tests/Integration/ToDosApiIntegrationTests.cs:114-127`). The handler
calls `First()`, which throws InvalidOperationException, and the middleware
answers that with 400. The model follows the code; "## Findings" records the
difference.

Clock, randomness and I/O are parameters. `now` is the cache clock in
seconds. `newId` is the value `Guid.NewGuid()` (or Entity Framework's key
generator) returns. `online` says whether the distributed cache answers.
`thrown` is the exception the rest of the pipeline ended with.
`HttpContext.nextCalls` counts the calls of the next pipeline component.

## Model

| member | source | states |
|---|---|---|
| Guids.Format | ToDos.Api/Services/CachedRepository.cs:92 | the Guid text in a cache key is 36 characters long, with hyphens at positions 8, 13, 18 and 23 |
| Guids.HexRoundTrip | ToDos.Api/Services/CachedRepository.cs:92 | reading back the hex digits of a number recovers the number |
| Guids.FormatInjective | ToDos.Api/Services/CachedRepository.cs:92 | two Guids with the same text are the same Guid |
| Store.Filter | ToDos.Infrastructure/Data/Cosmos/CosmosDbRepository.cs:38-43 | the result holds exactly the stored records that satisfy the filter, and is no longer than the store |
| Store.FirstIndex | ToDos.Infrastructure/Data/EntityFramework/InmemoryRespository.cs:19 | finds a position holding the id, and finds none exactly when the id is not stored |
| Store.Lookup | ToDos.Infrastructure/Data/Cosmos/CosmosDbRepository.cs:36 | a found record is stored and has the id; none is found exactly when the id is absent |
| Store.FilterById | ToDos.Api/Services/CachedRepository.cs:78-79 | in a store with unique ids, filtering by id yields the looked-up record alone, or nothing |
| Store.FirstOfFilterById | ToDos.Api/Services/CachedRepository.cs:78-79 | FirstOrDefault of the id filter is the looked-up record; the filter is empty exactly when the lookup fails |
| Store.ReplaceFirst | ToDos.Infrastructure/Data/Cosmos/CosmosDbRepository.cs:29 | ReplaceOne keeps the length; each record stays as it was or becomes the replacement in place of a record with the replacement's id |
| Store.DeleteFirst | ToDos.Infrastructure/Data/Cosmos/CosmosDbRepository.cs:36 | FindOneAndDelete removes at most one record, adds none, and keeps every record whose id differs |
| Store.LookupAfterReplace | ToDos.Infrastructure/Data/Cosmos/CosmosDbRepository.cs:29 | after replace-by-id the id reads the new record if it was stored; every other id reads as before |
| Store.ReplaceKeepsIds | ToDos.Infrastructure/Data/Cosmos/CosmosDbRepository.cs:29 | replace-by-id keeps the set of ids and their uniqueness |
| Store.ReplaceAbsent | ToDos.Infrastructure/Data/Cosmos/CosmosDbRepository.cs:29 | replacing an id that is not stored changes nothing |
| Store.LookupAfterDelete | ToDos.Infrastructure/Data/Cosmos/CosmosDbRepository.cs:36 | delete-by-id removes exactly that id, keeps ids unique, and leaves every other lookup unchanged |
| Store.DeleteAbsent | ToDos.Infrastructure/Data/Cosmos/CosmosDbRepository.cs:36 | deleting an id that is not stored changes nothing |
| Store.LookupAfterAppend | ToDos.Infrastructure/Data/Cosmos/CosmosDbRepository.cs:24-25 | inserting a record with a fresh non-empty id adds exactly that id and keeps ids unique |
| Store.RemoveAtFirstIndex | ToDos.Infrastructure/Data/EntityFramework/InmemoryRespository.cs:19-20 | removing the record Single found is delete-by-id |
| Store.OverwriteAtFirstIndex | ToDos.Infrastructure/Data/EntityFramework/InmemoryRespository.cs:38-39 | overwriting the record Single found is replace-by-id |
| Cosmos.Assigned | ToDos.Infrastructure/Data/Cosmos/CosmosDbRepository.cs:22-31 | the returned entity differs from the given one at most in its id; an empty id is replaced by the generated one, any other entity is returned as given |
| Cosmos.Saved | ToDos.Infrastructure/Data/Cosmos/CosmosDbRepository.cs:22-30 | an insert adds one record and a replace none; every record afterwards was stored before or is the returned entity |
| Cosmos.Persists | ToDos.Infrastructure/Data/Cosmos/CosmosDbRepository.cs:22-30 | a save reaches the store exactly when the id is empty or a record with that id is stored |
| Cosmos.SaveEffect | ToDos.Infrastructure/Data/Cosmos/CosmosDbRepository.cs:19-32 | a save keeps ids unique and returns a non-empty id; it stores the returned entity under its id when it persists, leaves every other id unchanged, and changes nothing when the id is absent |
| Cosmos.CosmosDbRepository.SaveAsync | ToDos.Infrastructure/Data/Cosmos/CosmosDbRepository.cs:19-32 | an empty id gets the fresh id and is inserted; otherwise replace-by-id, a no-op for an absent id; the entity is returned with its id; other records are unchanged |
| Cosmos.CosmosDbRepository.SaveCheckedAsync | ToDos.Infrastructure/Data/Cosmos/CosmosDbRepository.cs:27-31 | corrected save: it fails with NotFound exactly when the replace matches nothing, and then leaves the store unchanged |
| Cosmos.CosmosDbRepository.DeleteAsync | ToDos.Infrastructure/Data/Cosmos/CosmosDbRepository.cs:33-37 | returns the stored record for the id, or None with the store unchanged; removes exactly that id |
| Cosmos.CosmosDbRepository.GetAsync | ToDos.Infrastructure/Data/Cosmos/CosmosDbRepository.cs:38-44 | returns exactly the stored records satisfying the filter; the store is unchanged |
| EntityFramework.Single | ToDos.Infrastructure/Data/EntityFramework/InmemoryRespository.cs:19 | succeeds exactly when one record has the id, at that record's position; otherwise InvalidOperationException |
| EntityFramework.SingleOnWellFormed | ToDos.Infrastructure/Data/EntityFramework/InmemoryRespository.cs:19 | with unique ids, Single fails exactly for an absent id, with "no matching element" |
| EntityFramework.SingleRejectsDuplicates | ToDos.Infrastructure/Data/EntityFramework/InmemoryRespository.cs:19 | two records with one id make Single throw "more than one matching element" |
| EntityFramework.InMemoryRepository.DeleteAsync | ToDos.Infrastructure/Data/EntityFramework/InmemoryRespository.cs:17-23 | fails exactly when the id is absent, leaving the set; otherwise removes and returns exactly that record |
| EntityFramework.InMemoryRepository.GetAsync | ToDos.Infrastructure/Data/EntityFramework/InmemoryRespository.cs:25-28 | returns exactly the records satisfying the filter |
| EntityFramework.InMemoryRepository.SaveAsync | ToDos.Infrastructure/Data/EntityFramework/InmemoryRespository.cs:30-43 | an empty id is added under the generated key; an existing id has all values overwritten; an absent id throws and the set is unchanged; other records are unchanged |
| Caching.Read | ToDos.Api/Services/CachingService.cs:31-50 | a value comes back exactly when the cache answers and the entry is present, unexpired and deserialisable; otherwise default |
| Caching.Written | ToDos.Api/Services/CachingService.cs:52-76 | a set touches no other key |
| Caching.Removed | ToDos.Api/Services/CachingService.cs:78-89 | a remove deletes only its key, and does so when the cache answers |
| Caching.SetThenGet | ToDos.Api/Services/CachingService.cs:52-69 | a value set with a positive expiry reads back unchanged until it expires |
| Caching.DefaultExpiresAfterOneHour | ToDos.Api/Services/CachingService.cs:59-67 | without an expiry a value is readable for exactly one hour |
| Caching.OtherKeysUntouched | ToDos.Api/Services/CachingService.cs:78-82 | setting or removing one key never changes what another key reads |
| Caching.CachingService.GetAsync | ToDos.Api/Services/CachingService.cs:31-50 | returns the Read of the current entries; a missing key or unreachable cache is a miss |
| Caching.CachingService.SetAsync | ToDos.Api/Services/CachingService.cs:52-76 | entries become Written; when the cache answers and the expiry is positive, the value reads back |
| Caching.CachingService.RemoveAsync | ToDos.Api/Services/CachingService.cs:78-89 | entries become Removed; when the cache answers, the key is gone |
| Caching.CachingService.RemoveByPatternAsync | ToDos.Api/Services/CachingService.cs:91-104 | the cache is unchanged |
| Text.LowerChar | ToDos.Api/Services/CachedRepository.cs:92 | ASCII capitals map to their small letters; every other character is kept |
| Text.Lower | ToDos.Api/Services/CachedRepository.cs:92 | lower-casing keeps the length and lower-cases each character |
| Text.EqualsIgnoreCaseIsLowerEquality | ToDos.Api/Services/ApiKeyAuthenticationService.cs:31 | two strings are equal ignoring case exactly when their lower-case forms are equal |
| CachedRepositories.GetCacheKey | ToDos.Api/Services/CachedRepository.cs:90-93 | the key is `todo:`, the lower-cased type name, `:` and the 36-character Guid text, and nothing else |
| CachedRepositories.UserTodosKey | ToDos.Api/Services/CachedRepository.cs:100 | the todo-list key is `user_todos:` followed by the e-mail exactly |
| CachedRepositories.Key | ToDos.Api/Services/CachedRepository.cs:90-93 | for the ToDo classes the key is `todo:todo:` followed by the Guid text |
| CachedRepositories.KeyShape | ToDos.Api/Services/CachedRepository.cs:90-93 | the key is `todo:todo:` plus the Guid text; distinct ids get distinct keys; no record key is a todo-list key |
| CachedRepositories.CacheKeyInjective | ToDos.Api/Services/CachedRepository.cs:90-93 | equal keys for one type name mean equal ids |
| CachedRepositories.KeysDisjoint | ToDos.Api/Services/CachedRepository.cs:90-100 | record keys and todo-list keys never coincide |
| CachedRepositories.Invalidated | ToDos.Api/Services/CachedRepository.cs:95-104 | only the owner's todo-list key is touched, and only for Entities.ToDo |
| CachedRepositories.AfterSave | ToDos.Api/Services/CachedRepository.cs:30-43 | when the cache answers, the saved record is served under its key and the owner's todo-list entry is gone (Entities.ToDo); when it does not, the cache is unchanged; no other key changes |
| CachedRepositories.AfterDelete | ToDos.Api/Services/CachedRepository.cs:45-62 | the cache only loses entries; with no record removed, or no cache, it is unchanged; otherwise the id's key and the owner's todo-list entry (Entities.ToDo) are gone |
| CachedRepositories.ByIdResult | ToDos.Api/Services/CachedRepository.cs:64-88 | nothing is found exactly when the cache misses and the id is not stored; on a miss the result is a stored record with that id |
| CachedRepositories.AfterGetById | ToDos.Api/Services/CachedRepository.cs:64-88 | a hit, a record not found or an unreachable cache leaves the cache unchanged; a found record is then served under its key; no other key changes |
| CachedRepositories.Coherent | ToDos.Api/Services/CachedRepository.cs:64-88 | the agreement of cache and store: every record the cache serves is the stored record with that id; a cache with nothing live agrees with any store |
| CachedRepositories.CoherentLater | ToDos.Api/Services/CachedRepository.cs:83 | agreement between cache and store survives the passing of time |
| CachedRepositories.GetByIdIsStoreValue | ToDos.Api/Services/CachedRepository.cs:64-88 | with cache and store in agreement, get-by-id returns the stored record and keeps the agreement |
| CachedRepositories.SaveKeepsCoherent | ToDos.Api/Services/CachedRepository.cs:30-43 | a save that persists keeps cache and store in agreement when the cache answers or the record is new |
| CachedRepositories.DeleteKeepsCoherent | ToDos.Api/Services/CachedRepository.cs:45-62 | a delete keeps cache and store in agreement when the cache answers or nothing was deleted |
| CachedRepositories.SaveThenGetHits | ToDos.Api/Services/CachedRepository.cs:30-43 | within the hour after a save that reached the cache, get-by-id is a cache hit returning the saved record |
| CachedRepositories.DeleteThenGetMisses | ToDos.Api/Services/CachedRepository.cs:45-62 | after a delete that removed a record and reached the cache, get-by-id misses the cache and finds nothing |
| CachedRepositories.PhantomAfterSave | ToDos.Api/Services/CachedRepository.cs:30-43 | as written: saving an absent id leaves the store empty, yet get-by-id returns the record, so the agreement breaks |
| CachedRepositories.CheckedSaveKeepsCoherent | ToDos.Api/Services/CachedRepository.cs:30-43 | corrected: with the checked save, cache and store stay in agreement for every entity when the cache answers or the record is new; a save of an absent id leaves the store unchanged |
| CachedRepositories.CachedRepository.GetAsync | ToDos.Api/Services/CachedRepository.cs:23-28 | returns the repository's filter result; the cache is unchanged |
| CachedRepositories.CachedRepository.InvalidateRelatedCaches | ToDos.Api/Services/CachedRepository.cs:95-104 | the entries become Invalidated: the owner's todo-list key is removed for Entities.ToDo only |
| CachedRepositories.CachedRepository.SaveAsync | ToDos.Api/Services/CachedRepository.cs:30-43 | returns the repository's result, caches it for an hour under its key, drops the owner's todo-list key, and keeps the agreement when the save persists |
| CachedRepositories.CachedRepository.SaveCheckedAsync | ToDos.Api/Services/CachedRepository.cs:30-43 | corrected save: a missing record is reported with NotFound, and the store and cache are left unchanged; otherwise as SaveAsync; the agreement is kept when the cache answers or the record is new |
| CachedRepositories.CachedRepository.DeleteAsync | ToDos.Api/Services/CachedRepository.cs:45-62 | returns the repository's result; a null result leaves the cache; otherwise the id's key and the owner's todo-list key are removed; the agreement is kept |
| CachedRepositories.CachedRepository.GetByIdAsync | ToDos.Api/Services/CachedRepository.cs:64-88 | a hit returns the cached record without calling the repository; a miss returns the first match and caches it only when one is found |
| Handlers.InsertByDate | ToDos.Api/Handlers/GetToDosQueryHandler.cs:20 | insertion adds exactly the one item |
| Handlers.InsertByDateSorted | ToDos.Api/Handlers/GetToDosQueryHandler.cs:20 | inserting into a date-sorted sequence keeps it sorted |
| Handlers.OrderByDate | ToDos.Api/Handlers/GetToDosQueryHandler.cs:20 | the result is sorted by date and is a permutation of the input |
| Handlers.InsertByDateStable | ToDos.Api/Handlers/GetToDosQueryHandler.cs:20 | an inserted item comes ahead of the items of its date already there, which keep their order |
| Handlers.OrderByDateStable | ToDos.Api/Handlers/GetToDosQueryHandler.cs:20 | items with equal dates keep their repository order |
| Handlers.HandleGetToDos | ToDos.Api/Handlers/GetToDosQueryHandler.cs:17-21 | repository errors propagate; otherwise the result is sorted, a permutation of the e-mail filter's result, empty for an empty result, and holds only that e-mail |
| Handlers.GetToDosOnStore | ToDos.Api/Handlers/GetToDosQueryHandler.cs:19-20 | over a store, the result holds exactly that user's items, sorted and stable |
| Handlers.HandleGetToDoById | ToDos.Api/Handlers/GetToDoByIdQueryHandler.cs:17-20 | as written: the first match, with the requested id when the filter is honoured; an empty result is InvalidOperationException; repository errors propagate |
| Handlers.HandleGetToDoByIdOrNotFound | ToDos.Api/Handlers/GetToDoByIdQueryHandler.cs:19 | corrected: an empty result is NotFoundException |
| Handlers.GetToDoByIdOnStore | ToDos.Api/Handlers/GetToDoByIdQueryHandler.cs:19 | over a store with unique ids, it returns the stored record, and InvalidOperationException exactly when the id is absent |
| Paging.Wrap32 | ToDos.Api/Models/PagedResult.cs:19 | unchecked int arithmetic keeps in-range results and is congruent modulo 2^32 |
| Paging.CeilDiv | ToDos.Api/Models/PagedResult.cs:9 | the quotient is the ceiling of count over page size, for either sign of the page size |
| Paging.PageBounds | ToDos.Api/Models/PagedResult.cs:9-11 | TotalPages pages hold every item and one page fewer does not; zero pages exactly when there are no items; a next page exactly when items lie beyond the current page; a previous page exactly when the page is past the first |
| Paging.Validated | ToDos.Api/Models/PagedResult.cs:21-26 | page below 1 becomes 1; page size below 1 becomes 10 and above 100 becomes 100; in-range values are kept |
| Paging.ValidateIdempotent | ToDos.Api/Models/PagedResult.cs:21-26 | validating twice is validating once |
| Paging.SkipOf | ToDos.Api/Models/PagedResult.cs:19 | Skip equals (Page - 1) * PageSize whenever that fits in an int |
| Paging.SkipOverflowsAfterValidate | ToDos.Api/Models/PagedResult.cs:19-26 | as written: page int.MaxValue with page size 100 passes Validate unchanged, yet Skip is -200 |
| Paging.SkipWide | ToDos.Api/Models/PagedResult.cs:19 | corrected: Skip in 64-bit arithmetic is exactly (Page - 1) * PageSize, and is not negative for positive page and page size |
| Paging.ValidatedSkip | ToDos.Api/Models/PagedResult.cs:19-26 | corrected: after Validate, Skip lies between 0 and (int.MaxValue - 1) * 100 |
| Paging.PagedQuery.constructor | ToDos.Api/Models/PagedResult.cs:16-17 | the defaults are page 1 and page size 10 |
| Paging.PagedQuery.Validate | ToDos.Api/Models/PagedResult.cs:21-26 | the fields become Validated of the old ones, are in range, and in-range fields are unchanged |
| Http.FindClaim | ToDos.Api/Services/ApiKeyAuthenticationService.cs:42-47 | a claim value is found exactly when a claim of that type exists, and it is that claim's value |
| Http.TryGetValue | ToDos.Api/Middleware/ApiKeyAuthenticationMiddleware.cs:36-41 | a value is found exactly when some entry's name equals the name ignoring case, and it is that entry's value |
| Http.FirstOrDefault | ToDos.Api/Middleware/ApiKeyAuthenticationMiddleware.cs:38-43 | the first value, or null for none |
| Http.StartsWithSegments | ToDos.Api/Middleware/ApiKeyAuthenticationMiddleware.cs:19-27 | a path starts with a segment exactly when, lower-cased, it begins with the lower-cased segment and ends there or continues with '/' |
| Http.SegmentsIgnoreCase | ToDos.Api/Middleware/ApiKeyAuthenticationMiddleware.cs:19-27 | two paths that differ only in letter case start with the same segments |
| Http.NotSegmentAt | ToDos.Api/Middleware/ApiKeyAuthenticationMiddleware.cs:19-31 | one differing letter rules a segment out |
| Http.HttpContext.Next | ToDos.Api/Middleware/ApiKeyAuthenticationMiddleware.cs:22-29 | the next component runs once; the response is unchanged |
| ApiKeys.ApiKeyAuthenticationService.ValidateApiKey | ToDos.Api/Services/ApiKeyAuthenticationService.cs:16-38 | accepted exactly when the key is non-null and non-empty, a non-empty key is configured, and the two agree ignoring case |
| ApiKeys.ApiKeyAuthenticationService.CreatePrincipal | ToDos.Api/Services/ApiKeyAuthenticationService.cs:40-51 | one authenticated identity of type ApiKey with three claims: Name ApiUser, AuthenticationMethod ApiKey, and ApiKey holding the key |
| ApiKeys.NothingConfiguredRefusesAll | ToDos.Api/Services/ApiKeyAuthenticationService.cs:24-29 | with no key configured every key is refused |
| ApiKeys.AcceptanceIgnoresCase | ToDos.Api/Services/ApiKeyAuthenticationService.cs:31 | changing a key's letter case never changes acceptance |
| ApiKeys.AcceptedKeys | ToDos.Api/Services/ApiKeyAuthenticationService.cs:31-37 | with a key configured, the accepted keys are exactly the non-empty case variants of it |
| Authentication.IsOpen | ToDos.Api/Middleware/ApiKeyAuthenticationMiddleware.cs:19-31 | an open path starts with `/` and is at least seven characters long (the shortest open segment, `/health`) |
| Authentication.Decide | ToDos.Api/Middleware/ApiKeyAuthenticationMiddleware.cs:19-60 | exactly the open paths pass through; every other request is refused or admitted |
| Authentication.OpenPathsIgnoreKeys | ToDos.Api/Middleware/ApiKeyAuthenticationMiddleware.cs:19-31 | on an open path every request passes through, whatever its headers, query string or configured key |
| Authentication.OpennessIgnoresCase | ToDos.Api/Middleware/ApiKeyAuthenticationMiddleware.cs:19-31 | whether a path is open does not depend on its letter case |
| Authentication.PresentedKey | ToDos.Api/Middleware/ApiKeyAuthenticationMiddleware.cs:33-44 | the header's first value when the header is present, else the query parameter's first value, else none |
| Authentication.AdmittedOnlyWithValidKey | ToDos.Api/Middleware/ApiKeyAuthenticationMiddleware.cs:46-66 | a protected request is admitted exactly when its key validates; the user then carries that key and is named ApiUser; a refusal says "API key is required" for a missing or empty key, else "Invalid API key" |
| Authentication.HeaderShadowsQuery | ToDos.Api/Middleware/ApiKeyAuthenticationMiddleware.cs:36-44 | when the header is present, the query string is never consulted |
| Authentication.EmptyHeaderIgnoresQuery | ToDos.Api/Middleware/ApiKeyAuthenticationMiddleware.cs:36-52 | an empty header value with a valid query key is refused as missing; the query key alone is admitted |
| Authentication.TodosIsProtected | ToDos.Api/Middleware/ApiKeyAuthenticationMiddleware.cs:19-31 | /api/todos needs a key |
| Authentication.SwaggerIsOpen | ToDos.Api/Middleware/ApiKeyAuthenticationMiddleware.cs:19-24 | /swagger/index.html needs no key |
| Authentication.ApiDocsIsOpen | ToDos.Api/Middleware/ApiKeyAuthenticationMiddleware.cs:19-24 | /api-docs/v1/swagger.json needs no key |
| Authentication.HealthIsOpen | ToDos.Api/Middleware/ApiKeyAuthenticationMiddleware.cs:27-31 | /health needs no key |
| Authentication.OpenIgnoresCase | ToDos.Api/Middleware/ApiKeyAuthenticationMiddleware.cs:19-20 | /SWAGGER needs no key |
| Authentication.WholeSegmentsOnly | ToDos.Api/Middleware/ApiKeyAuthenticationMiddleware.cs:19-31 | /swaggerui and /healthz need a key |
| Authentication.InvokeAsync | ToDos.Api/Middleware/ApiKeyAuthenticationMiddleware.cs:16-67 | exactly one outcome: open paths call next; a refusal sets 401, writes the reason and does not call next; an admitted key sets the user and calls next once |
| ErrorHandling.HandleException | ToDos.Api/Middleware/ExceptionHandlingMiddleware.cs:28-45 | NotFound gives ("NotFound", 404, "Data could not be found."); an argument exception gives ("BadRequest", 400, its message); any other gives ("Error", 400, its message); the status is 404 exactly for NotFound |
| ErrorHandling.MessageDisclosure | ToDos.Api/Middleware/ExceptionHandlingMiddleware.cs:30-45 | NotFound answers never depend on the exception's message; others pass it on; only three error codes occur |
| ErrorHandling.Invoke | ToDos.Api/Middleware/ExceptionHandlingMiddleware.cs:16-51 | next runs once; without an exception nothing is written; with one, the content type is application/json, the status is the classified one, and the body is {errorCode, message} |
| ErrorHandling.MissingIdAnswersBadRequest | ToDos.Api/Handlers/GetToDoByIdQueryHandler.cs:19 | as written: a by-id request for an absent id is answered 400 "Error" with LINQ's message |
| ErrorHandling.MissingIdAnswersNotFound | ToDos.Api/Handlers/GetToDoByIdQueryHandler.cs:19 | corrected: it is answered 404 NotFound, and a stored id still returns its record |

## Left out

- Logging, `async`/`await` and `CancellationToken`: every call is taken as sequential and complete.
- The MongoDB driver, Entity Framework's `ToDosDbContext` and the `IDistributedCache` transport. Each is the state it holds: a sequence of records or a map of entries. For the cache only, a transport failure is the `online` flag.
- Store driver exceptions (time-outs, lost connections, duplicate keys from MongoDB or Entity Framework) are not modelled: the Cosmos repository's methods and the decorator's calls into it always complete. So the decorator's path where the inner call throws, nothing is cached and the exception propagates (CachedRepository.cs lines 32, 47 and 76) is not covered. The query handlers do model a repository exception and propagate it.
- JSON serialisation is taken as the identity. An entry holds the value, empty text, or text that does not deserialise (`Garbled`). The error body is the two-field `ErrorJson` value; JSON escaping is not modelled.
- `Guid.NewGuid()` and Entity Framework's key generation are the `newId` parameter. The parameter must be non-empty and not already stored.
- Cache eviction other than absolute expiry is not modelled (memory pressure, sliding expiry).
- Concurrency between requests sharing the cache or the store is not modelled.
- Routing, hosting, dependency injection, AutoMapper profiles, `PerformanceMonitoringMiddleware` and the `IPaginatedRepository` interface: framework glue with no logic of their own.
- The save and delete command handlers delegate in one line to the repository, whose model covers them.
- `CachedRepository` is modelled over the Cosmos repository, the one repository the service registers, not over an arbitrary repository.
- Cosmos.CosmosDbRepository.SaveAsync: the source writes the generated id into the caller's own object and returns that same object. The model returns an updated copy and leaves the argument as it was, so the aliasing between argument and result is not captured. The decorator reads only the argument's Email afterwards, which the id does not change.
- EntityFramework.InMemoryRepository.SaveAsync: likewise, Entity Framework writes the generated key into the added object in place; the model returns an updated copy.
- EntityFramework.Single: the exception messages are LINQ-to-Objects wording ("Sequence contains no matching element", "... more than one matching element"). Entity Framework runs `Single(pred)` through its query pipeline, which may word them as "no elements" and "more than one element". The source relies only on the exception class.
- Unicode case folding: `ToLower` and `OrdinalIgnoreCase` are modelled on ASCII letters only.
- Request headers and query parameters are lists of names with values. Names compare ignoring case, as in ASP.NET Core. A null element inside a value list is not modelled.
- Exceptions thrown by `next` after it has begun writing the response are not modelled. There, setting the status would itself throw.
- The .NET byte order inside a Guid is not modelled. Only the textual "D" form matters to the cache keys, and the model keeps it injective.
- Paging.PagedResult.TotalPages: requires a non-zero page size. With a zero page size the source divides doubles and casts infinity or NaN to int; that case is not modelled.
- Paging.CeilDiv: does not model the `(int)` cast overflowing. Only TotalCount int.MinValue with PageSize -1 overflows. For all other int operands the double quotient rounds to the exact ceiling.
- CachedRepositories.CachedRepository.SaveAsync: coherence is promised only when the cache answers or the record is new. After a swallowed cache failure a stale entry can remain, as in the source.
- CachedRepositories.CachedRepository.SaveCheckedAsync: coherence is promised only when the cache answers or the record is new, for the same reason as SaveAsync.
- CachedRepositories.CheckedSaveKeepsCoherent: coherence is promised only when the cache answers or the record is new, for the same reason as SaveAsync.
- CachedRepositories.SaveThenGetHits: stated only for a save that reached the cache. After a swallowed cache failure the read goes to whatever the cache held before.
- CachedRepositories.DeleteThenGetMisses: stated only for a delete that reached the cache. After a swallowed cache failure a stale entry can still be served.
- CachedRepositories.CachedRepository.DeleteAsync: coherence is promised only when the cache answers or nothing was deleted, for the same reason.
- Paging.PagedQuery.Skip and PagedResult's HasNextPage and HasPreviousPage are plain expressions. They are specified through Paging.SkipOf and Paging.PageBounds.

## Findings

| source | as written | input that shows it | evidently intended | confidence | as-written member | corrected member |
|---|---|---|---|---|---|---|
| ToDos.Api/Models/PagedResult.cs:19-26 | Validate bounds PageSize but not Page, and Skip multiplies in 32-bit int, which wraps | Page = 2147483647, PageSize = 100: Validate changes nothing and Skip = -200 | a Skip that is never negative after Validate (64-bit product, or an upper bound on Page) | not executed | Paging.SkipOverflowsAfterValidate | Paging.ValidatedSkip |
| ToDos.Infrastructure/Data/Cosmos/CosmosDbRepository.cs:27-31 with ToDos.Api/Services/CachedRepository.cs:30-36 | a replace that matches no document returns the entity as saved, and the decorator caches it | empty store, save ToDo with id 1: the store stays empty, yet GetByIdAsync(1) returns the record | a missing record is reported (NotFoundException) and nothing is cached; the decorator is not registered by `ToDos.Api/Program.cs:15`, so the service as configured does not reach this | not executed | CachedRepositories.PhantomAfterSave | CachedRepositories.CheckedSaveKeepsCoherent |
| ToDos.Api/Handlers/GetToDoByIdQueryHandler.cs:19 | `First()` on an empty result throws InvalidOperationException, which the middleware answers 400 "Error" | GET /api/todos/{id} for an id not stored | 404 NotFound for an absent id | not executed | ErrorHandling.MissingIdAnswersBadRequest | ErrorHandling.MissingIdAnswersNotFound |
