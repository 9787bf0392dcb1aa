/** The ToDo record (the domain fields plus the store id) and the exceptions
    that the core raises or classifies. */
module Entities {
  import opened Wrappers
  import opened Guids

  /** A stored ToDo: Name may be null, Date is a DateTimeOffset taken as the
      instant it denotes (UTC ticks), Id is the BSON id. */
  datatype ToDo = ToDo(id: Guid, name: Option<string>, email: string, date: int, done: bool)
}

module Exceptions {

  /** ArgumentException and the subclasses of it that callers meet. */
  datatype ArgumentKind = PlainArgument | ArgumentNull | ArgumentOutOfRange

  /** The exception classes the request pipeline can see. */
  datatype Exception =
    | NotFound(message: string)
    | Argument(kind: ArgumentKind, message: string)
    | InvalidOperation(message: string)
    | Other(typeName: string, message: string)
  {
    /** `exception is ArgumentException`, subclasses included. */
    predicate IsArgumentException() { Argument? }
  }

  /** Messages of the InvalidOperationException that LINQ's First and Single throw. */
  const NoElements: string := "Sequence contains no elements"
  const NoMatch: string := "Sequence contains no matching element"
  const MoreThanOneMatch: string := "Sequence contains more than one matching element"
}
