/** ExceptionHandlingMiddleware: turns an exception thrown further down the
    pipeline into a JSON error response. */
module ErrorHandling {
  import opened Wrappers
  import opened Entities
  import opened Exceptions
  import opened Store
  import opened Http
  import opened Handlers

  const BadRequest: int := 400
  const NotFoundStatus: int := 404
  const JsonContentType: string := "application/json"
  /** The fixed message of every NotFoundException answer. */
  const NotFoundText: string := "Data could not be found."

  datatype ErrorResponse = ErrorResponse(errorCode: string, statusCode: int, message: string)

  /** HandleExceptionAsync's classification: a NotFoundException is a 404
      with a fixed message; every other exception is a 400 carrying the
      exception's own message, coded BadRequest for argument exceptions
      and Error for the rest. */
  function HandleException(e: Exception): (r: ErrorResponse)
    ensures r.statusCode == NotFoundStatus <==> e.NotFound?
    ensures r.statusCode == BadRequest <==> !e.NotFound?
    ensures e.NotFound? ==> r == ErrorResponse("NotFound", NotFoundStatus, NotFoundText)
    ensures e.IsArgumentException() ==> r == ErrorResponse("BadRequest", BadRequest, e.message)
    ensures !e.NotFound? && !e.IsArgumentException() ==> r == ErrorResponse("Error", BadRequest, e.message)
  {
    if e.NotFound? then ErrorResponse("NotFound", NotFoundStatus, NotFoundText)
    else if e.IsArgumentException() then ErrorResponse("BadRequest", BadRequest, e.message)
    else ErrorResponse("Error", BadRequest, e.message)
  }

  /** A not-found answer never reveals the exception's own message; any
      other answer passes it on unchanged. */
  lemma MessageDisclosure(a: Exception, b: Exception)
    ensures a.NotFound? && b.NotFound? ==> HandleException(a) == HandleException(b)
    ensures !a.NotFound? ==> HandleException(a).message == a.message
    ensures HandleException(a).errorCode in {"NotFound", "BadRequest", "Error"}
  {
  }

  /** Invoke: runs the rest of the pipeline; `thrown` is the exception it
      ended with, if any. Only then is the response rewritten, as JSON. */
  method Invoke(context: HttpContext, thrown: Option<Exception>)
    modifies context
    ensures context.nextCalls == old(context.nextCalls) + 1 && context.user == old(context.user)
    ensures thrown.None? ==>
              context.statusCode == old(context.statusCode) && context.contentType == old(context.contentType)
              && context.body == old(context.body)
    ensures thrown.Some? ==>
              var response := HandleException(thrown.value);
              context.contentType == Some(JsonContentType) && context.statusCode == response.statusCode
              && context.body == old(context.body) + [ErrorJson(response.errorCode, response.message)]
  {
    context.Next();
    if thrown.Some? {
      var response := HandleException(thrown.value);
      context.contentType := Some(JsonContentType);
      context.statusCode := response.statusCode;
      context.body := context.body + [ErrorJson(response.errorCode, response.message)];
    }
  }

  /** GetToDoById for an id the store does not hold, as the handler is
      written: First() fails with InvalidOperationException, which the
      middleware answers with 400 "Error" and LINQ's message. */
  lemma MissingIdAnswersBadRequest(docs: seq<ToDo>, request: GetToDoByIdQuery)
    requires WellFormed(docs) && request.id !in Ids(docs)
    ensures var r := HandleGetToDoById(request, (f: ToDo -> bool) => Ok(Filter(docs, f)));
              r.Err? && HandleException(r.error) == ErrorResponse("Error", BadRequest, NoElements)
  {
    GetToDoByIdOnStore(docs, request);
  }

  /** With the handler raising NotFoundException, the same request is
      answered 404 NotFound, and a stored id is still answered with its
      record. */
  lemma MissingIdAnswersNotFound(docs: seq<ToDo>, request: GetToDoByIdQuery)
    requires WellFormed(docs)
    ensures var r := HandleGetToDoByIdOrNotFound(request, (f: ToDo -> bool) => Ok(Filter(docs, f)));
              (request.id !in Ids(docs) ==>
                 r.Err? && HandleException(r.error) == ErrorResponse("NotFound", NotFoundStatus, NotFoundText))
              && (request.id in Ids(docs) ==> r == Ok(Lookup(docs, request.id).value))
  {
    FilterById(docs, request.id);
  }
}
