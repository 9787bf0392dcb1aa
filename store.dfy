/** A document collection as both repositories see it: the stored ToDo records
    in the store's natural order. The functions here are the queries and
    single-record updates that the drivers perform on it. */
module Store {
  import opened Wrappers
  import opened Guids
  import opened Entities

  /** A filtered query (`Find(filter)`, `Where(filter)`): the records that
      satisfy the predicate, in stored order. */
  function Filter(s: seq<ToDo>, f: ToDo -> bool): (r: seq<ToDo>)
    ensures |r| <= |s|
    ensures forall x :: x in r <==> x in s && f(x)
  {
    if s == [] then [] else (if f(s[0]) then [s[0]] else []) + Filter(s[1..], f)
  }

  /** The filter `e => e.Id == id`. */
  function HasId(id: Guid): ToDo -> bool
  {
    (t: ToDo) => t.id == id
  }

  /** The filter `i => i.Email == email`. */
  function EmailIs(email: string): ToDo -> bool
  {
    (t: ToDo) => t.email == email
  }

  /** The ids present in the collection. */
  function Ids(s: seq<ToDo>): set<Guid>
  {
    if s == [] then {} else {s[0].id} + Ids(s[1..])
  }

  /** The collection holds at most one record per id, and none with Guid.Empty:
      the id is the document key and is assigned before insertion. */
  predicate WellFormed(s: seq<ToDo>)
  {
    s == [] || (s[0].id != Empty && s[0].id !in Ids(s[1..]) && WellFormed(s[1..]))
  }

  /** Position of the first record with the given id. */
  function FirstIndex(s: seq<ToDo>, id: Guid): (r: Option<nat>)
    ensures r.Some? ==> r.value < |s| && s[r.value].id == id
    ensures r.None? <==> id !in Ids(s)
  {
    if s == [] then None
    else if s[0].id == id then Some(0)
    else match FirstIndex(s[1..], id)
      case None => None
      case Some(i) => Some(i + 1)
  }

  /** The first record with the given id, if any: the map view of the collection. */
  function Lookup(s: seq<ToDo>, id: Guid): (r: Option<ToDo>)
    ensures r.Some? ==> r.value in s && r.value.id == id
    ensures r.None? <==> id !in Ids(s)
  {
    if s == [] then None
    else if s[0].id == id then Some(s[0])
    else Lookup(s[1..], id)
  }

  /** `ReplaceOne(e => e.Id == x.Id, x)`: the first record with x's id becomes x;
      with no such record nothing changes (a replace is not an upsert). */
  function ReplaceFirst(s: seq<ToDo>, x: ToDo): (r: seq<ToDo>)
    ensures |r| == |s|
    ensures forall i :: 0 <= i < |s| ==> r[i] == s[i] || (r[i] == x && s[i].id == x.id)
  {
    if s == [] then []
    else if s[0].id == x.id then [x] + s[1..]
    else [s[0]] + ReplaceFirst(s[1..], x)
  }

  /** `FindOneAndDelete(e => e.Id == id)`: the first record with that id is removed. */
  function DeleteFirst(s: seq<ToDo>, id: Guid): (r: seq<ToDo>)
    ensures |s| - 1 <= |r| <= |s|
    ensures forall y :: y in r ==> y in s
    ensures forall y :: y in s && y.id != id ==> y in r
  {
    if s == [] then []
    else
      assert s == [s[0]] + s[1..];
      if s[0].id == id then s[1..] else [s[0]] + DeleteFirst(s[1..], id)
  }

  lemma {:induction false} InIds(s: seq<ToDo>, i: nat)
    requires i < |s|
    ensures s[i].id in Ids(s)
  {
    if i > 0 {
      InIds(s[1..], i - 1);
    }
  }

  /** The filter by id returns the one record with that id, or nothing. */
  lemma {:induction false} FilterById(s: seq<ToDo>, id: Guid)
    requires WellFormed(s)
    ensures Filter(s, HasId(id)) == match Lookup(s, id) case None => [] case Some(x) => [x]
  {
    if s != [] {
      FilterById(s[1..], id);
      if s[0].id == id {
        assert Lookup(s[1..], id) == None;
      }
    }
  }

  /** A replace only ever changes the record with the replacement's id. */
  lemma {:induction false} LookupAfterReplace(s: seq<ToDo>, x: ToDo, id: Guid)
    ensures Lookup(ReplaceFirst(s, x), id) ==
      if id == x.id && Lookup(s, id).Some? then Some(x) else Lookup(s, id)
  {
    if s != [] && s[0].id != x.id {
      var r := ReplaceFirst(s, x);
      assert r[0] == s[0] && r[1..] == ReplaceFirst(s[1..], x);
      LookupAfterReplace(s[1..], x, id);
    }
  }

  /** A replace keeps every id in place. */
  lemma {:induction false} ReplaceKeepsIds(s: seq<ToDo>, x: ToDo)
    ensures Ids(ReplaceFirst(s, x)) == Ids(s)
    ensures WellFormed(s) ==> WellFormed(ReplaceFirst(s, x))
  {
    if s != [] && s[0].id != x.id {
      ReplaceKeepsIds(s[1..], x);
      assert ReplaceFirst(s, x)[1..] == ReplaceFirst(s[1..], x);
    }
  }

  /** A replace with an id that is not stored leaves the collection as it was. */
  lemma {:induction false} ReplaceAbsent(s: seq<ToDo>, x: ToDo)
    requires x.id !in Ids(s)
    ensures ReplaceFirst(s, x) == s
  {
    if s != [] {
      ReplaceAbsent(s[1..], x);
    }
  }

  /** A delete removes exactly the record with that id and keeps the rest. */
  lemma {:induction false} LookupAfterDelete(s: seq<ToDo>, gone: Guid, id: Guid)
    requires WellFormed(s)
    ensures Ids(DeleteFirst(s, gone)) == Ids(s) - {gone}
    ensures WellFormed(DeleteFirst(s, gone))
    ensures Lookup(DeleteFirst(s, gone), id) == if id == gone then None else Lookup(s, id)
  {
    if s != [] {
      LookupAfterDelete(s[1..], gone, id);
      if s[0].id != gone {
        assert DeleteFirst(s, gone)[1..] == DeleteFirst(s[1..], gone);
      }
    }
  }

  /** A delete of an id that is not stored leaves the collection as it was. */
  lemma {:induction false} DeleteAbsent(s: seq<ToDo>, id: Guid)
    requires id !in Ids(s)
    ensures DeleteFirst(s, id) == s
  {
    if s != [] {
      DeleteAbsent(s[1..], id);
    }
  }

  /** Appending a record with a new id adds exactly that record. */
  lemma {:induction false} LookupAfterAppend(s: seq<ToDo>, x: ToDo, id: Guid)
    requires x.id !in Ids(s)
    ensures Ids(s + [x]) == Ids(s) + {x.id}
    ensures WellFormed(s) && x.id != Empty ==> WellFormed(s + [x])
    ensures Lookup(s + [x], id) == if id == x.id then Some(x) else Lookup(s, id)
  {
    if s != [] {
      assert (s + [x])[1..] == s[1..] + [x];
      LookupAfterAppend(s[1..], x, id);
    }
  }

  /** The first record a filter by id yields is the first record with that id. */
  lemma {:induction false} FirstOfFilterById(s: seq<ToDo>, id: Guid)
    ensures Filter(s, HasId(id)) == [] <==> Lookup(s, id) == None
    ensures Filter(s, HasId(id)) != [] ==> Filter(s, HasId(id))[0] == Lookup(s, id).value
  {
    if s != [] {
      FirstOfFilterById(s[1..], id);
    }
  }

  /** Removing the element at the first index of an id is deleting that id. */
  lemma {:induction false} RemoveAtFirstIndex(s: seq<ToDo>, id: Guid, i: nat)
    requires FirstIndex(s, id) == Some(i)
    ensures s[..i] + s[i + 1..] == DeleteFirst(s, id)
  {
    if s[0].id != id {
      assert FirstIndex(s[1..], id) == Some(i - 1);
      RemoveAtFirstIndex(s[1..], id, i - 1);
      DropOneSplit(s, i);
    }
  }

  /** Dropping position i > 0 keeps the head and drops position i - 1 of the tail. */
  lemma DropOneSplit(s: seq<ToDo>, i: nat)
    requires 0 < i < |s|
    ensures s[..i] + s[i + 1..] == [s[0]] + (s[1..][..i - 1] + s[1..][i..])
  {
    assert s[..i] == [s[0]] + s[1..][..i - 1];
  }

  /** Overwriting the element at the first index of an id is replacing that id. */
  lemma {:induction false} OverwriteAtFirstIndex(s: seq<ToDo>, x: ToDo, i: nat)
    requires FirstIndex(s, x.id) == Some(i)
    ensures s[i := x] == ReplaceFirst(s, x)
  {
    if s[0].id != x.id {
      OverwriteAtFirstIndex(s[1..], x, i - 1);
      assert ReplaceFirst(s, x) == [s[0]] + ReplaceFirst(s[1..], x);
      assert s[i := x] == [s[0]] + s[1..][i - 1 := x];
    }
  }
}
