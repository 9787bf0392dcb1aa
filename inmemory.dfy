/** InmemoryRespository: the generic repository over an Entity Framework
    DbSet (the in-memory provider). The set is the field `rows`; Single,
    Add, Remove and SetValues followed by SaveChanges are updates of it. */
module EntityFramework {
  import opened Wrappers
  import opened Guids
  import opened Entities
  import opened Exceptions
  import opened Store

  /** `Single(x => x.Id == id)`: the position of the only record with that id,
      or the InvalidOperationException LINQ throws for none or several. */
  function Single(rows: seq<ToDo>, id: Guid): (r: Result<nat, Exception>)
    ensures r.Ok? ==> r.value < |rows| && rows[r.value].id == id
    ensures r.Ok? ==> FirstIndex(rows, id) == Some(r.value)
    ensures r.Ok? <==> |Filter(rows, HasId(id))| == 1
    ensures r.Err? ==> r.error.InvalidOperation?
  {
    var n := |Filter(rows, HasId(id))|;
    FirstOfFilterById(rows, id);
    if n == 0 then Err(InvalidOperation(NoMatch))
    else if n > 1 then Err(InvalidOperation(MoreThanOneMatch))
    else Ok(FirstIndex(rows, id).value)
  }

  /** In a set with one record per id, Single fails exactly when the id is
      absent, and otherwise finds the record a lookup finds. */
  lemma SingleOnWellFormed(rows: seq<ToDo>, id: Guid)
    requires WellFormed(rows)
    ensures Single(rows, id).Ok? <==> id in Ids(rows)
    ensures Single(rows, id).Ok? ==> Lookup(rows, id) == Some(rows[Single(rows, id).value])
    ensures Single(rows, id).Err? ==> Single(rows, id) == Err(InvalidOperation(NoMatch))
  {
    FilterById(rows, id);
    FirstOfFilterById(rows, id);
  }

  /** Single can also fail on a set that is not keyed by id: two records with
      one id make it throw although the id is present. */
  lemma SingleRejectsDuplicates(x: ToDo)
    ensures x.id in Ids([x, x])
    ensures Single([x, x], x.id) == Err(InvalidOperation(MoreThanOneMatch))
  {
    assert Filter([x, x], HasId(x.id)) == [x, x] by {
      assert [x, x][1..] == [x];
    }
  }

  class InMemoryRepository {
    /** The tracked set, in insertion order. */
    var rows: seq<ToDo>

    ghost predicate Valid()
      reads this
    {
      WellFormed(rows)
    }

    constructor ()
      ensures Valid() && rows == []
    {
      rows := [];
    }

    /** DeleteAsync: Single by id, Remove, SaveChanges; the removed record is
        returned. Single's exception propagates with the set unchanged. */
    method DeleteAsync(id: Guid) returns (r: Result<ToDo, Exception>)
      requires Valid()
      modifies this
      ensures Valid()
      ensures r.Err? <==> id !in Ids(old(rows))
      ensures r.Err? ==> r == Err(InvalidOperation(NoMatch)) && rows == old(rows)
      ensures r.Ok? ==> Some(r.value) == Lookup(old(rows), id) && rows == DeleteFirst(old(rows), id)
      ensures Lookup(rows, id) == None
      ensures forall other :: other != id ==> Lookup(rows, other) == Lookup(old(rows), other)
    {
      SingleOnWellFormed(rows, id);
      match Single(rows, id) {
        case Err(e) =>
          r := Err(e);
          DeleteAbsent(old(rows), id);
        case Ok(i) =>
          var item := rows[i];
          rows := rows[..i] + rows[i + 1..];
          r := Ok(item);
          RemoveAtFirstIndex(old(rows), id, i);
      }
      LookupAfterDelete(old(rows), id, id);
      forall other | other != id
        ensures Lookup(rows, other) == Lookup(old(rows), other)
      {
        LookupAfterDelete(old(rows), id, other);
      }
    }

    /** GetAsync: `Where(filter).ToListAsync()`; the set is not changed. */
    method GetAsync(filter: ToDo -> bool) returns (r: seq<ToDo>)
      requires Valid()
      ensures r == Filter(rows, filter)
      ensures forall x :: x in r <==> x in rows && filter(x)
    {
      r := Filter(rows, filter);
    }

    /** SaveAsync: a new entity (Guid.Empty id) is added and receives the key
        `newId` that the provider's value generator assigns; otherwise the one
        stored record with the entity's id has every value overwritten
        (SetValues), and Single throws when there is no such record. */
    method SaveAsync(entity: ToDo, newId: Guid) returns (r: Result<ToDo, Exception>)
      requires Valid()
      requires entity.id == Empty ==> newId != Empty && newId !in Ids(rows)
      modifies this
      ensures Valid()
      ensures r.Err? <==> entity.id != Empty && entity.id !in Ids(old(rows))
      ensures r.Err? ==> r == Err(InvalidOperation(NoMatch)) && rows == old(rows)
      ensures r.Ok? && entity.id == Empty ==> r.value == entity.(id := newId) && rows == old(rows) + [r.value]
      ensures r.Ok? && entity.id != Empty ==> r.value == entity && rows == ReplaceFirst(old(rows), entity)
      ensures r.Ok? ==> Lookup(rows, r.value.id) == Some(r.value)
      ensures r.Ok? ==> forall id :: id != r.value.id ==> Lookup(rows, id) == Lookup(old(rows), id)
    {
      if entity.id == Empty {
        var added := entity.(id := newId);
        rows := rows + [added];
        r := Ok(added);
        LookupAfterAppend(old(rows), added, added.id);
        forall id | id != added.id
          ensures Lookup(rows, id) == Lookup(old(rows), id)
        {
          LookupAfterAppend(old(rows), added, id);
        }
      } else {
        SingleOnWellFormed(rows, entity.id);
        match Single(rows, entity.id) {
          case Err(e) =>
            r := Err(e);
          case Ok(i) =>
            rows := rows[i := entity];
            r := Ok(entity);
            OverwriteAtFirstIndex(old(rows), entity, i);
            ReplaceKeepsIds(old(rows), entity);
            LookupAfterReplace(old(rows), entity, entity.id);
            forall id | id != entity.id
              ensures Lookup(rows, id) == Lookup(old(rows), id)
            {
              LookupAfterReplace(old(rows), entity, id);
            }
        }
      }
    }
  }
}
