/** CosmosDbRepository: the generic repository over a MongoDB-compatible
    collection named after the entity type. The collection is the field `docs`;
    each driver call (InsertOne, ReplaceOne, FindOneAndDelete, Find) is one
    assignment to it or one read of it. */
module Cosmos {
  import opened Wrappers
  import opened Guids
  import opened Entities
  import opened Exceptions
  import opened Store

  /** The entity SaveAsync returns: a new entity (Guid.Empty id) carries the
      freshly generated id, any other entity comes back as it was given. */
  function Assigned(entity: ToDo, newId: Guid): (r: ToDo)
    ensures entity.id == Empty ==> r.id == newId
    ensures entity.id != Empty ==> r == entity
    ensures r.(id := entity.id) == entity
  {
    if entity.id == Empty then entity.(id := newId) else entity
  }

  /** The collection after SaveAsync: insert for a new entity, otherwise
      replace-by-id, which changes nothing when the id is not stored. */
  function Saved(docs: seq<ToDo>, entity: ToDo, newId: Guid): (r: seq<ToDo>)
    ensures |r| == |docs| + (if entity.id == Empty then 1 else 0)
    ensures forall y :: y in r ==> y in docs || y == Assigned(entity, newId)
  {
    if entity.id == Empty then docs + [entity.(id := newId)] else ReplaceFirst(docs, entity)
  }

  /** Whether SaveAsync actually writes the entity: always for a new entity,
      and for an existing one only when its id is stored. */
  predicate Persists(docs: seq<ToDo>, entity: ToDo)
    ensures Persists(docs, entity) <==> entity.id == Empty || Lookup(docs, entity.id).Some?
  {
    entity.id == Empty || entity.id in Ids(docs)
  }

  /** What a save does to each id: the returned entity is stored under its id
      when the save persists, every other record stays as it was, and the
      collection keeps one record per non-empty id. */
  lemma SaveEffect(docs: seq<ToDo>, entity: ToDo, newId: Guid, id: Guid)
    requires WellFormed(docs)
    requires entity.id == Empty ==> newId != Empty && newId !in Ids(docs)
    ensures WellFormed(Saved(docs, entity, newId))
    ensures Assigned(entity, newId).id != Empty
    ensures Lookup(Saved(docs, entity, newId), id) ==
      if id == Assigned(entity, newId).id && Persists(docs, entity)
      then Some(Assigned(entity, newId)) else Lookup(docs, id)
    ensures !Persists(docs, entity) ==> Saved(docs, entity, newId) == docs
  {
    if entity.id == Empty {
      LookupAfterAppend(docs, entity.(id := newId), id);
    } else {
      ReplaceKeepsIds(docs, entity);
      LookupAfterReplace(docs, entity, id);
      if entity.id !in Ids(docs) {
        ReplaceAbsent(docs, entity);
      }
    }
  }

  /** Message of the NotFoundException raised for a missing record. */
  const NotFoundMessage: string := "Data could not be found."

  class CosmosDbRepository {
    /** The documents of the collection, in natural order. */
    var docs: seq<ToDo>
    /** Round trips made to the collection so far. */
    ghost var calls: nat

    ghost predicate Valid()
      reads this
    {
      WellFormed(docs)
    }

    constructor ()
      ensures Valid() && docs == [] && calls == 0
    {
      docs := [];
      calls := 0;
    }

    /** SaveAsync: a new entity gets `newId` (the value Guid.NewGuid returned)
        and is inserted; otherwise the stored record with the same id is
        replaced, and an id that is not stored is silently ignored. */
    method SaveAsync(entity: ToDo, newId: Guid) returns (r: ToDo)
      requires Valid()
      requires entity.id == Empty ==> newId != Empty && newId !in Ids(docs)
      modifies this
      ensures Valid() && calls == old(calls) + 1
      ensures r == Assigned(entity, newId) && r.id != Empty
      ensures docs == Saved(old(docs), entity, newId)
      ensures Persists(old(docs), entity) ==> Lookup(docs, r.id) == Some(r)
      ensures !Persists(old(docs), entity) ==> docs == old(docs)
      ensures forall id :: id != r.id ==> Lookup(docs, id) == Lookup(old(docs), id)
    {
      r := entity;
      if entity.id == Empty {
        r := r.(id := newId);
        docs := docs + [r];
      } else {
        docs := ReplaceFirst(docs, r);
      }
      calls := calls + 1;
      SaveEffect(old(docs), entity, newId, r.id);
      forall id | id != r.id
        ensures Lookup(docs, id) == Lookup(old(docs), id)
      {
        SaveEffect(old(docs), entity, newId, id);
      }
    }

    /** SaveAsync as evidently intended: a replace that matches no document
        (ReplaceOneResult.MatchedCount == 0) raises NotFoundException instead
        of returning the entity as if it had been saved. */
    method SaveCheckedAsync(entity: ToDo, newId: Guid) returns (r: Result<ToDo, Exception>)
      requires Valid()
      requires entity.id == Empty ==> newId != Empty && newId !in Ids(docs)
      modifies this
      ensures Valid() && calls == old(calls) + 1
      ensures r.Ok? <==> Persists(old(docs), entity)
      ensures r.Ok? ==> r.value == Assigned(entity, newId) && Lookup(docs, r.value.id) == Some(r.value)
      ensures r.Ok? ==> docs == Saved(old(docs), entity, newId)
      ensures r.Err? ==> r.error.NotFound? && docs == old(docs)
    {
      var matched := Persists(docs, entity);
      var saved := SaveAsync(entity, newId);
      if matched {
        r := Ok(saved);
      } else {
        r := Err(NotFound(NotFoundMessage));
      }
    }

    /** DeleteAsync: FindOneAndDelete by id, returning the removed record, or
        null (None) with the collection unchanged when no record matches. */
    method DeleteAsync(id: Guid) returns (r: Option<ToDo>)
      requires Valid()
      modifies this
      ensures Valid() && calls == old(calls) + 1
      ensures r == Lookup(old(docs), id)
      ensures docs == DeleteFirst(old(docs), id)
      ensures r.None? ==> docs == old(docs)
      ensures Lookup(docs, id) == None
      ensures forall other :: other != id ==> Lookup(docs, other) == Lookup(old(docs), other)
    {
      r := Lookup(docs, id);
      docs := DeleteFirst(docs, id);
      calls := calls + 1;
      LookupAfterDelete(old(docs), id, id);
      if r.None? {
        DeleteAbsent(old(docs), id);
      }
      forall other | other != id
        ensures Lookup(docs, other) == Lookup(old(docs), other)
      {
        LookupAfterDelete(old(docs), id, other);
      }
    }

    /** GetAsync: the stored records that satisfy the filter; the collection
        is not changed. */
    method GetAsync(filter: ToDo -> bool) returns (r: seq<ToDo>)
      requires Valid()
      modifies this
      ensures Valid() && calls == old(calls) + 1 && docs == old(docs)
      ensures r == Filter(docs, filter)
      ensures forall x :: x in r <==> x in docs && filter(x)
    {
      r := Filter(docs, filter);
      calls := calls + 1;
    }
  }
}
