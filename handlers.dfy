/** The two query handlers. Each makes exactly one filtered call to the
    repository, modelled as a function from filter to records-or-exception,
    and post-processes the records. */
module Handlers {
  import opened Wrappers
  import opened Guids
  import opened Entities
  import opened Exceptions
  import opened Store

  datatype GetToDosQuery = GetToDosQuery(email: string)

  datatype GetToDoByIdQuery = GetToDoByIdQuery(id: Guid)

  /** IRepository.GetAsync as a handler calls it: one filter in, the matching
      records or the repository's exception out. */
  type Query = (ToDo -> bool) -> Result<seq<ToDo>, Exception>

  /** The repository behind `repo` returns only records that satisfy `f`. */
  ghost predicate Honours(repo: Query, f: ToDo -> bool)
  {
    repo(f).Ok? ==> forall x :: x in repo(f).value ==> f(x)
  }

  predicate SortedByDate(s: seq<ToDo>)
  {
    forall i, j :: 0 <= i < j < |s| ==> s[i].date <= s[j].date
  }

  /** The filter `x => x.Date == d`. */
  function DateIs(d: int): ToDo -> bool
  {
    (t: ToDo) => t.date == d
  }

  /** Places x before the first element with a date not earlier than its own. */
  function InsertByDate(x: ToDo, s: seq<ToDo>): (r: seq<ToDo>)
    ensures multiset(r) == multiset(s) + multiset{x}
  {
    if s == [] then [x]
    else if x.date <= s[0].date then [x] + s
    else
      assert s == [s[0]] + s[1..];
      [s[0]] + InsertByDate(x, s[1..])
  }

  lemma {:induction false} InsertByDateSorted(x: ToDo, s: seq<ToDo>)
    requires SortedByDate(s)
    ensures SortedByDate(InsertByDate(x, s))
  {
    if s != [] && x.date > s[0].date {
      var rest := InsertByDate(x, s[1..]);
      InsertByDateSorted(x, s[1..]);
      forall k | 0 <= k < |rest|
        ensures s[0].date <= rest[k].date
      {
        assert rest[k] in multiset(rest);
        if rest[k] != x {
          assert rest[k] in multiset(s[1..]);
          var j :| 0 <= j < |s[1..]| && s[1..][j] == rest[k];
          assert s[j + 1] == rest[k];
        }
      }
    }
  }

  /** `OrderBy(x => x.Date)`: a stable sort by date (insertion sort). */
  function OrderByDate(s: seq<ToDo>): (r: seq<ToDo>)
    ensures SortedByDate(r)
    ensures multiset(r) == multiset(s)
  {
    if s == [] then []
    else
      var rest := OrderByDate(s[1..]);
      InsertByDateSorted(s[0], rest);
      assert s == [s[0]] + s[1..];
      InsertByDate(s[0], rest)
  }

  lemma {:induction false} InsertByDateStable(x: ToDo, s: seq<ToDo>, d: int)
    ensures Filter(InsertByDate(x, s), DateIs(d)) ==
      if x.date == d then [x] + Filter(s, DateIs(d)) else Filter(s, DateIs(d))
  {
    if s != [] {
      if x.date <= s[0].date {
        assert ([x] + s)[1..] == s;
      } else {
        var rest := InsertByDate(x, s[1..]);
        assert ([s[0]] + rest)[1..] == rest;
        InsertByDateStable(x, s[1..], d);
      }
    }
  }

  /** Stability: the records of any one date come out in the order they went in. */
  lemma {:induction false} OrderByDateStable(s: seq<ToDo>, d: int)
    ensures Filter(OrderByDate(s), DateIs(d)) == Filter(s, DateIs(d))
  {
    if s != [] {
      OrderByDateStable(s[1..], d);
      InsertByDateStable(s[0], OrderByDate(s[1..]), d);
    }
  }

  /** GetToDosQueryHandler.Handle: the repository's records for the email,
      ordered by date; a repository exception propagates unchanged. */
  function HandleGetToDos(request: GetToDosQuery, repo: Query): (r: Result<seq<ToDo>, Exception>)
    ensures repo(EmailIs(request.email)).Err? ==> r == repo(EmailIs(request.email))
    ensures r.Ok? <==> repo(EmailIs(request.email)).Ok?
    ensures r.Ok? ==> SortedByDate(r.value) && multiset(r.value) == multiset(repo(EmailIs(request.email)).value)
    ensures repo(EmailIs(request.email)) == Ok([]) ==> r == Ok([])
    ensures r.Ok? && Honours(repo, EmailIs(request.email)) ==>
      forall x :: x in r.value ==> x.email == request.email
  {
    match repo(EmailIs(request.email))
    case Err(e) => Err(e)
    case Ok(records) =>
      var sorted := OrderByDate(records);
      assert forall x :: x in sorted ==> x in multiset(records) && (x in records ==> EmailIs(request.email)(x) == (x.email == request.email));
      Ok(sorted)
  }

  /** Over a store that answers with a filtered query, GetToDos returns that
      user's records, sorted, each date's records in stored order. */
  lemma GetToDosOnStore(docs: seq<ToDo>, request: GetToDosQuery, d: int)
    ensures var r := HandleGetToDos(request, (f: ToDo -> bool) => Ok(Filter(docs, f)));
      && r.Ok?
      && (forall x :: x in r.value <==> x in docs && x.email == request.email)
      && SortedByDate(r.value)
      && multiset(r.value) == multiset(Filter(docs, EmailIs(request.email)))
      && Filter(r.value, DateIs(d)) == Filter(Filter(docs, EmailIs(request.email)), DateIs(d))
  {
    var fetched := Filter(docs, EmailIs(request.email));
    OrderByDateStable(fetched, d);
    var r := HandleGetToDos(request, (f: ToDo -> bool) => Ok(Filter(docs, f)));
    forall x
      ensures x in r.value <==> x in docs && x.email == request.email
    {
      assert x in r.value <==> x in multiset(fetched);
    }
  }

  /** GetToDoByIdQueryHandler.Handle: `First()` of the repository's records
      for the id. An empty answer makes First throw InvalidOperationException
      (not NotFoundException); a repository exception propagates. */
  function HandleGetToDoById(request: GetToDoByIdQuery, repo: Query): (r: Result<ToDo, Exception>)
    ensures r.Ok? <==> repo(HasId(request.id)).Ok? && repo(HasId(request.id)).value != []
    ensures r.Ok? ==> r.value == repo(HasId(request.id)).value[0]
    ensures r.Ok? && Honours(repo, HasId(request.id)) ==> r.value.id == request.id
    ensures repo(HasId(request.id)).Err? ==> r == Err(repo(HasId(request.id)).error)
    ensures repo(HasId(request.id)) == Ok([]) ==> r == Err(InvalidOperation(NoElements))
  {
    match repo(HasId(request.id))
    case Err(e) => Err(e)
    case Ok(records) =>
      if records == [] then Err(InvalidOperation(NoElements))
      else
        assert records[0] in records;
        Ok(records[0])
  }

  /** The handler as evidently intended: a missing record raises NotFoundException. */
  function HandleGetToDoByIdOrNotFound(request: GetToDoByIdQuery, repo: Query): (r: Result<ToDo, Exception>)
    ensures r.Ok? <==> repo(HasId(request.id)).Ok? && repo(HasId(request.id)).value != []
    ensures r.Ok? ==> r.value == repo(HasId(request.id)).value[0]
    ensures r.Ok? && Honours(repo, HasId(request.id)) ==> r.value.id == request.id
    ensures repo(HasId(request.id)).Err? ==> r == Err(repo(HasId(request.id)).error)
    ensures repo(HasId(request.id)) == Ok([]) ==> r.Err? && r.error.NotFound?
  {
    match repo(HasId(request.id))
    case Err(e) => Err(e)
    case Ok(records) =>
      if records == [] then Err(NotFound(MissingToDo))
      else
        assert records[0] in records;
        Ok(records[0])
  }

  const MissingToDo: string := "ToDo not found"

  /** Over a store keyed by id, GetToDoById returns the stored record, and
      fails with InvalidOperationException exactly when the id is absent. */
  lemma GetToDoByIdOnStore(docs: seq<ToDo>, request: GetToDoByIdQuery)
    requires WellFormed(docs)
    ensures HandleGetToDoById(request, (f: ToDo -> bool) => Ok(Filter(docs, f))) ==
      match Lookup(docs, request.id)
      case Some(x) => Ok(x)
      case None => Err(InvalidOperation(NoElements))
  {
    FilterById(docs, request.id);
  }
}
