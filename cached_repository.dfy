/** CachedRepository: a decorator over the Cosmos repository that reads
    single records through the cache, writes saved records through to it and
    invalidates the owner's todo-list entry on every change. */
module CachedRepositories {
  import opened Wrappers
  import opened Guids
  import opened Entities
  import opened Exceptions
  import opened Store
  import opened Caching
  import opened Cosmos
  import opened Text

  /** The solution declares two ToDo classes with the same members
      (Infrastructure.Data.ToDo and Infrastructure.Data.Entities.ToDo); the
      decorator's `entity is ToDo` test names the second one. */
  datatype EntityClass = EntitiesToDo | DataToDo

  /** typeof(T).Name, the same for both ToDo classes. */
  const TypeName: string := "ToDo"

  /** GetCacheKey: `todo:<lower-cased type name>:<id>`, the id in its
      36-character text form. */
  function GetCacheKey(typeName: string, id: Guid): (k: string)
    ensures |k| == |typeName| + 42
    ensures k[..5] == "todo:" && k[5..|typeName| + 5] == Lower(typeName)
    ensures k[|typeName| + 5] == ':' && k[|typeName| + 6..] == Format(id)
  {
    "todo:" + Lower(typeName) + ":" + Format(id)
  }

  /** The key of the cached todo list of one user. */
  function UserTodosKey(email: string): (k: string)
    ensures |k| == |email| + 11
    ensures k[..11] == "user_todos:" && k[11..] == email
  {
    "user_todos:" + email
  }

  /** The key under which this decorator caches the record with a given id. */
  function Key(id: Guid): (k: string)
    ensures k == "todo:todo:" + Format(id)
  {
    GetCacheKey(TypeName, id)
  }

  /** For the ToDo classes the key is `todo:todo:` followed by the Guid's text;
      keys of distinct ids differ, and no record key is a todo-list key. */
  lemma KeyShape(id: Guid, other: Guid, email: string)
    ensures Key(id) == "todo:todo:" + Format(id)
    ensures Key(id) == Key(other) ==> id == other
    ensures Key(id) != UserTodosKey(email)
  {
    assert Lower(TypeName) == "todo";
    if Key(id) == Key(other) {
      CacheKeyInjective(TypeName, id, other);
    }
    KeysDisjoint(TypeName, id, email);
  }

  /** The same type name and two different ids never share a key. */
  lemma CacheKeyInjective(typeName: string, a: Guid, b: Guid)
    requires GetCacheKey(typeName, a) == GetCacheKey(typeName, b)
    ensures a == b
  {
    var prefix := "todo:" + Lower(typeName) + ":";
    assert GetCacheKey(typeName, a)[|prefix|..] == Format(a);
    assert GetCacheKey(typeName, b)[|prefix|..] == Format(b);
    FormatInjective(a, b);
  }

  /** Record keys and todo-list keys live in different namespaces. */
  lemma KeysDisjoint(typeName: string, id: Guid, email: string)
    ensures GetCacheKey(typeName, id) != UserTodosKey(email)
  {
    assert GetCacheKey(typeName, id)[0] == 't';
    assert UserTodosKey(email)[0] == 'u';
  }

  /** InvalidateRelatedCaches(entity): removes the owner's todo-list entry,
      and only for Entities.ToDo instances. */
  function Invalidated(entries: map<string, Entry>, cls: EntityClass, entity: ToDo, online: bool): (r: map<string, Entry>)
    ensures cls == DataToDo ==> r == entries
    ensures cls == EntitiesToDo && online ==> UserTodosKey(entity.email) !in r
    ensures forall k :: k != UserTodosKey(entity.email) ==> (k in r <==> k in entries)
    ensures forall k :: k != UserTodosKey(entity.email) && k in r ==> r[k] == entries[k]
  {
    if cls == EntitiesToDo then Removed(entries, UserTodosKey(entity.email), online) else entries
  }

  /** The cache after SaveAsync(entity) stored and returned `saved`: when the
      cache answers, the saved record is served under its key and the owner's
      todo-list entry is gone (for Entities.ToDo); when it does not, the
      cache is as it was. No other key changes. */
  function AfterSave(entries: map<string, Entry>, cls: EntityClass, entity: ToDo, saved: ToDo,
                     now: int, online: bool): (r: map<string, Entry>)
    ensures online ==> Read(r, Key(saved.id), now, true) == Some(saved)
    ensures online && cls == EntitiesToDo ==> UserTodosKey(entity.email) !in r
    ensures !online ==> r == entries
    ensures forall k :: k in r ==> k in entries || k == Key(saved.id)
    ensures forall k :: k != Key(saved.id) && k != UserTodosKey(entity.email) && k in entries ==>
              k in r && r[k] == entries[k]
  {
    KeysDisjoint(TypeName, saved.id, entity.email);
    Invalidated(Written(entries, Key(saved.id), saved, Some(OneHour), now, online), cls, entity, online)
  }

  /** The cache after DeleteAsync(id) got `removed` from the repository: it
      only ever loses entries; when a record was removed and the cache
      answers, the id's key and (for Entities.ToDo) the owner's todo-list
      entry are gone; otherwise the cache is as it was. */
  function AfterDelete(entries: map<string, Entry>, cls: EntityClass, id: Guid, removed: Option<ToDo>,
                       online: bool): (r: map<string, Entry>)
    ensures removed.None? || !online ==> r == entries
    ensures removed.Some? && online ==> Key(id) !in r
    ensures removed.Some? && online && cls == EntitiesToDo ==> UserTodosKey(removed.value.email) !in r
    ensures forall k :: k in r ==> k in entries && r[k] == entries[k]
  {
    match removed
    case None => entries
    case Some(x) => Invalidated(Removed(entries, Key(id), online), cls, x, online)
  }

  /** What GetByIdAsync(id) returns: the cached record on a hit, otherwise the
      first stored record with that id (FirstOrDefault). */
  function ByIdResult(docs: seq<ToDo>, entries: map<string, Entry>, id: Guid, now: int, online: bool): (r: Option<ToDo>)
    ensures r.None? <==> Read(entries, Key(id), now, online).None? && id !in Ids(docs)
    ensures Read(entries, Key(id), now, online).None? && r.Some? ==> r.value in docs && r.value.id == id
  {
    match Read(entries, Key(id), now, online)
    case Some(v) => Some(v)
    case None => Lookup(docs, id)
  }

  /** The cache after GetByIdAsync(id): a miss that finds the record caches it. */
  function AfterGetById(docs: seq<ToDo>, entries: map<string, Entry>, id: Guid, now: int, online: bool): (r: map<string, Entry>)
    ensures Read(entries, Key(id), now, online).Some? || Lookup(docs, id).None? || !online ==> r == entries
    ensures Read(entries, Key(id), now, online).None? && Lookup(docs, id).Some? && online ==>
              Read(r, Key(id), now, true) == Lookup(docs, id)
    ensures forall k :: k != Key(id) ==> (k in r <==> k in entries)
    ensures forall k :: k != Key(id) && k in r ==> r[k] == entries[k]
  {
    if Read(entries, Key(id), now, online).Some? then entries
    else match Lookup(docs, id)
      case None => entries
      case Some(x) => Written(entries, Key(id), x, Some(OneHour), now, online)
  }

  /** Cache and store agree: every record the cache would serve at `now` is
      the stored record with that id. */
  ghost predicate Coherent(docs: seq<ToDo>, entries: map<string, Entry>, now: int)
    ensures (forall k :: k in entries ==> !Live(entries[k], now)) ==> Coherent(docs, entries, now)
  {
    forall id: Guid :: Read(entries, Key(id), now, true).Some? ==> Read(entries, Key(id), now, true) == Lookup(docs, id)
  }

  /** Agreement survives the passing of time: entries only expire. */
  lemma CoherentLater(docs: seq<ToDo>, entries: map<string, Entry>, now: int, later: int)
    requires now <= later
    requires Coherent(docs, entries, now)
    ensures Coherent(docs, entries, later)
  {
    forall id: Guid | Read(entries, Key(id), later, true).Some?
      ensures Read(entries, Key(id), later, true) == Lookup(docs, id)
    {
      assert Read(entries, Key(id), now, true).Some?;
    }
  }

  /** With cache and store in agreement, GetByIdAsync returns exactly the
      stored record (hit or miss) and leaves them in agreement. */
  lemma GetByIdIsStoreValue(docs: seq<ToDo>, entries: map<string, Entry>, id: Guid, now: int, online: bool)
    requires Coherent(docs, entries, now)
    ensures ByIdResult(docs, entries, id, now, online) == Lookup(docs, id)
    ensures Coherent(docs, AfterGetById(docs, entries, id, now, online), now)
  {
    var after := AfterGetById(docs, entries, id, now, online);
    forall other: Guid | Read(after, Key(other), now, true).Some?
      ensures Read(after, Key(other), now, true) == Lookup(docs, other)
    {
      KeyShape(id, other, "");
      if other != id && Read(entries, Key(id), now, online).None? && Lookup(docs, id).Some? {
        OtherKeysUntouched(entries, Key(id), Key(other), Lookup(docs, id).value, Some(OneHour), now, now, online, true);
      }
    }
  }

  /** Saving keeps cache and store in agreement when the save persists and
      the cache can be written (or the record is new, so nothing is stale). */
  lemma SaveKeepsCoherent(docs: seq<ToDo>, entries: map<string, Entry>, cls: EntityClass, entity: ToDo,
                          newId: Guid, now: int, online: bool)
    requires WellFormed(docs)
    requires entity.id == Empty ==> newId != Empty && newId !in Ids(docs)
    requires Coherent(docs, entries, now)
    requires Persists(docs, entity)
    requires online || entity.id == Empty
    ensures Coherent(Saved(docs, entity, newId), AfterSave(entries, cls, entity, Assigned(entity, newId), now, online), now)
  {
    var saved := Assigned(entity, newId);
    var docs' := Saved(docs, entity, newId);
    var written := Written(entries, Key(saved.id), saved, Some(OneHour), now, online);
    var after := AfterSave(entries, cls, entity, saved, now, online);
    forall id: Guid | Read(after, Key(id), now, true).Some?
      ensures Read(after, Key(id), now, true) == Lookup(docs', id)
    {
      SaveEffect(docs, entity, newId, id);
      KeyShape(id, saved.id, entity.email);
      OtherKeysUntouched(written, UserTodosKey(entity.email), Key(id), saved, Some(OneHour), now, now, online, true);
      if id != saved.id {
        OtherKeysUntouched(entries, Key(saved.id), Key(id), saved, Some(OneHour), now, now, online, true);
      }
    }
  }

  /** Deleting keeps cache and store in agreement when the cache can be
      written (or nothing was deleted). */
  lemma DeleteKeepsCoherent(docs: seq<ToDo>, entries: map<string, Entry>, cls: EntityClass, id: Guid,
                            now: int, online: bool)
    requires WellFormed(docs)
    requires Coherent(docs, entries, now)
    requires online || id !in Ids(docs)
    ensures Coherent(DeleteFirst(docs, id), AfterDelete(entries, cls, id, Lookup(docs, id), online), now)
  {
    var docs' := DeleteFirst(docs, id);
    var after := AfterDelete(entries, cls, id, Lookup(docs, id), online);
    if Lookup(docs, id).None? {
      DeleteAbsent(docs, id);
    } else {
      var x := Lookup(docs, id).value;
      var removed := Removed(entries, Key(id), online);
      forall other: Guid | Read(after, Key(other), now, true).Some?
        ensures Read(after, Key(other), now, true) == Lookup(docs', other)
      {
        LookupAfterDelete(docs, id, other);
        KeyShape(other, id, x.email);
        OtherKeysUntouched(removed, UserTodosKey(x.email), Key(other), x, Some(OneHour), now, now, online, true);
        OtherKeysUntouched(entries, Key(id), Key(other), x, Some(OneHour), now, now, online, true);
      }
    }
  }

  /** Right after a save that reached the cache, reading the saved id within
      the hour is a hit that returns the saved record. */
  lemma SaveThenGetHits(docs: seq<ToDo>, entries: map<string, Entry>, cls: EntityClass, entity: ToDo,
                        saved: ToDo, now: int, later: int)
    requires now <= later < now + OneHour
    ensures Read(AfterSave(entries, cls, entity, saved, now, true), Key(saved.id), later, true) == Some(saved)
    ensures ByIdResult(docs, AfterSave(entries, cls, entity, saved, now, true), saved.id, later, true) == Some(saved)
  {
    var written := Written(entries, Key(saved.id), saved, Some(OneHour), now, true);
    KeyShape(saved.id, saved.id, entity.email);
    OtherKeysUntouched(written, UserTodosKey(entity.email), Key(saved.id), saved, Some(OneHour), now, later, true, true);
  }

  /** Right after a delete that reached the cache, reading that id misses the
      cache and the store no longer has it. */
  lemma DeleteThenGetMisses(docs: seq<ToDo>, entries: map<string, Entry>, cls: EntityClass, id: Guid,
                            now: int, later: int)
    requires WellFormed(docs)
    requires Lookup(docs, id).Some?
    ensures Read(AfterDelete(entries, cls, id, Lookup(docs, id), true), Key(id), later, true) == None
    ensures ByIdResult(DeleteFirst(docs, id), AfterDelete(entries, cls, id, Lookup(docs, id), true), id, later, true) == None
  {
    var x := Lookup(docs, id).value;
    LookupAfterDelete(docs, id, id);
    KeyShape(id, id, x.email);
    OtherKeysUntouched(Removed(entries, Key(id), true), UserTodosKey(x.email), Key(id), x, Some(OneHour), now, later, true, true);
  }

  /** SaveAsync as written: saving a record whose id is not stored changes
      nothing in the store, yet the decorator caches it, so GetByIdAsync then
      returns a record that the store does not hold. */
  lemma PhantomAfterSave()
    ensures var x := ToDo(1, None, "a@b.com", 0, false);
      && Coherent([], map[], 0)
      && Saved([], x, 0) == []
      && ByIdResult(Saved([], x, 0), AfterSave(map[], EntitiesToDo, x, Assigned(x, 0), 0, true), 1, 0, true) == Some(x)
      && Filter(Saved([], x, 0), HasId(1)) == []
      && !Coherent(Saved([], x, 0), AfterSave(map[], EntitiesToDo, x, Assigned(x, 0), 0, true), 0)
  {
    var x := ToDo(1, None, "a@b.com", 0, false);
    var after := AfterSave(map[], EntitiesToDo, x, Assigned(x, 0), 0, true);
    SaveThenGetHits([], map[], EntitiesToDo, x, x, 0, 0);
    assert Read(after, Key(1), 0, true) == Some(x);
    assert Lookup([], 1) == None;
  }

  /** The corrected save (the repository reports a missing record and nothing
      is cached) keeps cache and store in agreement for every entity. */
  lemma CheckedSaveKeepsCoherent(docs: seq<ToDo>, entries: map<string, Entry>, cls: EntityClass, entity: ToDo,
                                 newId: Guid, now: int, online: bool)
    requires WellFormed(docs)
    requires entity.id == Empty ==> newId != Empty && newId !in Ids(docs)
    requires Coherent(docs, entries, now)
    requires online || entity.id == Empty
    ensures Persists(docs, entity) ==>
      Coherent(Saved(docs, entity, newId), AfterSave(entries, cls, entity, Assigned(entity, newId), now, online), now)
    ensures !Persists(docs, entity) ==> Saved(docs, entity, newId) == docs
  {
    SaveEffect(docs, entity, newId, newId);
    if Persists(docs, entity) {
      SaveKeepsCoherent(docs, entries, cls, entity, newId, now, online);
    }
  }

  class CachedRepository {
    const inner: CosmosDbRepository
    const cache: CachingService
    /** Which ToDo class the decorator is instantiated with. */
    const entityClass: EntityClass

    ghost predicate Valid()
      reads this, inner
    {
      inner.Valid()
    }

    constructor (repository: CosmosDbRepository, cachingService: CachingService, cls: EntityClass)
      requires repository.Valid()
      ensures Valid()
      ensures inner == repository && cache == cachingService && entityClass == cls
    {
      inner := repository;
      cache := cachingService;
      entityClass := cls;
    }

    /** GetAsync: passed straight to the repository; the cache is not used. */
    method GetAsync(filter: ToDo -> bool) returns (r: seq<ToDo>)
      requires Valid()
      modifies inner
      ensures Valid() && inner.docs == old(inner.docs) && inner.calls == old(inner.calls) + 1
      ensures r == Filter(inner.docs, filter)
      ensures unchanged(cache)
    {
      r := inner.GetAsync(filter);
    }

    method InvalidateRelatedCaches(entity: ToDo)
      modifies cache
      ensures cache.online == old(cache.online)
      ensures cache.entries == Invalidated(old(cache.entries), entityClass, entity, cache.online)
    {
      if entityClass == EntitiesToDo {
        cache.RemoveAsync(UserTodosKey(entity.email));
      }
    }

    /** SaveAsync: save through the repository, cache the result for one hour
        under its id's key, then drop the owner's todo-list entry. */
    method SaveAsync(entity: ToDo, newId: Guid, now: int) returns (r: ToDo)
      requires Valid()
      requires entity.id == Empty ==> newId != Empty && newId !in Ids(inner.docs)
      modifies inner, cache
      ensures Valid() && cache.online == old(cache.online)
      ensures r == Assigned(entity, newId)
      ensures inner.docs == Saved(old(inner.docs), entity, newId)
      ensures cache.entries == AfterSave(old(cache.entries), entityClass, entity, r, now, cache.online)
      ensures cache.online ==> Read(cache.entries, Key(r.id), now, true) == Some(r)
      ensures cache.online && entityClass == EntitiesToDo ==> UserTodosKey(entity.email) !in cache.entries
      ensures (old(Coherent(inner.docs, cache.entries, now) && Persists(inner.docs, entity))
               && (cache.online || entity.id == Empty)) ==> Coherent(inner.docs, cache.entries, now)
    {
      ghost var docs0, entries0 := inner.docs, cache.entries;
      r := inner.SaveAsync(entity, newId);
      var cacheKey := GetCacheKey(TypeName, r.id);
      cache.SetAsync(cacheKey, r, Some(OneHour), now);
      InvalidateRelatedCaches(entity);
      if cache.online {
        SaveThenGetHits(inner.docs, entries0, entityClass, entity, r, now, now);
      }
      if Coherent(docs0, entries0, now) && Persists(docs0, entity) && (cache.online || entity.id == Empty) {
        SaveKeepsCoherent(docs0, entries0, entityClass, entity, newId, now, cache.online);
      }
    }

    /** SaveAsync over the corrected repository save: a missing record is
        reported and nothing is cached. */
    method SaveCheckedAsync(entity: ToDo, newId: Guid, now: int) returns (r: Result<ToDo, Exception>)
      requires Valid()
      requires entity.id == Empty ==> newId != Empty && newId !in Ids(inner.docs)
      modifies inner, cache
      ensures Valid() && cache.online == old(cache.online)
      ensures r.Ok? <==> Persists(old(inner.docs), entity)
      ensures r.Err? ==> r.error.NotFound? && inner.docs == old(inner.docs) && cache.entries == old(cache.entries)
      ensures r.Ok? ==> r.value == Assigned(entity, newId) && inner.docs == Saved(old(inner.docs), entity, newId)
      ensures r.Ok? ==> cache.entries == AfterSave(old(cache.entries), entityClass, entity, r.value, now, cache.online)
      ensures old(Coherent(inner.docs, cache.entries, now)) && (cache.online || entity.id == Empty)
              ==> Coherent(inner.docs, cache.entries, now)
    {
      ghost var docs0, entries0 := inner.docs, cache.entries;
      r := inner.SaveCheckedAsync(entity, newId);
      if r.Ok? {
        cache.SetAsync(GetCacheKey(TypeName, r.value.id), r.value, Some(OneHour), now);
        InvalidateRelatedCaches(entity);
      }
      if Coherent(docs0, entries0, now) && (cache.online || entity.id == Empty) {
        CheckedSaveKeepsCoherent(docs0, entries0, entityClass, entity, newId, now, cache.online);
      }
    }

    /** DeleteAsync: delete through the repository; when a record was removed,
        drop its key and the owner's todo-list entry. */
    method DeleteAsync(id: Guid) returns (r: Option<ToDo>)
      requires Valid()
      modifies inner, cache
      ensures Valid() && cache.online == old(cache.online)
      ensures r == Lookup(old(inner.docs), id)
      ensures inner.docs == DeleteFirst(old(inner.docs), id)
      ensures r.None? ==> cache.entries == old(cache.entries)
      ensures cache.entries == AfterDelete(old(cache.entries), entityClass, id, r, cache.online)
      ensures r.Some? && cache.online ==> Key(id) !in cache.entries
      ensures r.Some? && cache.online && entityClass == EntitiesToDo ==> UserTodosKey(r.value.email) !in cache.entries
      ensures forall t ::
                (old(Coherent(inner.docs, cache.entries, t)) && (cache.online || r.None?)
                 ==> Coherent(inner.docs, cache.entries, t))
    {
      ghost var docs0, entries0 := inner.docs, cache.entries;
      r := inner.DeleteAsync(id);
      if r.Some? {
        var cacheKey := GetCacheKey(TypeName, id);
        cache.RemoveAsync(cacheKey);
        InvalidateRelatedCaches(r.value);
        KeyShape(id, id, r.value.email);
      }
      forall t | Coherent(docs0, entries0, t) && (cache.online || r.None?)
        ensures Coherent(inner.docs, cache.entries, t)
      {
        DeleteKeepsCoherent(docs0, entries0, entityClass, id, t, cache.online);
      }
    }

    /** GetByIdAsync: a cache hit is returned without touching the repository;
        on a miss the first stored record with that id is returned and, when
        there is one, cached for an hour. */
    method GetByIdAsync(id: Guid, now: int) returns (r: Option<ToDo>)
      requires Valid()
      modifies inner, cache
      ensures Valid() && inner.docs == old(inner.docs) && cache.online == old(cache.online)
      ensures r == ByIdResult(inner.docs, old(cache.entries), id, now, cache.online)
      ensures cache.entries == AfterGetById(inner.docs, old(cache.entries), id, now, cache.online)
      ensures Read(old(cache.entries), Key(id), now, cache.online).Some? ==> inner.calls == old(inner.calls)
      ensures Read(old(cache.entries), Key(id), now, cache.online).None? ==> inner.calls == old(inner.calls) + 1
      ensures r.None? ==> cache.entries == old(cache.entries)
      ensures old(Coherent(inner.docs, cache.entries, now))
              ==> r == Lookup(inner.docs, id) && Coherent(inner.docs, cache.entries, now)
    {
      ghost var entries0 := cache.entries;
      var cacheKey := GetCacheKey(TypeName, id);
      var cachedEntity := cache.GetAsync(cacheKey, now);
      if cachedEntity.Some? {
        r := cachedEntity;
      } else {
        var entities := inner.GetAsync(HasId(id));
        FirstOfFilterById(inner.docs, id);
        r := if |entities| == 0 then None else Some(entities[0]);
        if r.Some? {
          cache.SetAsync(cacheKey, r.value, Some(OneHour), now);
        }
      }
      if Coherent(inner.docs, entries0, now) {
        GetByIdIsStoreValue(inner.docs, entries0, id, now, cache.online);
      }
    }
  }
}
