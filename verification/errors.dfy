/** The exception taxonomy of the application and the failure-carrying
    wrappers every operation of the model returns. A raised exception is an
    `Err`; an exception that a `try` block catches and re-raises as another
    class keeps the caught one as its `cause`. */
module Errors {

  datatype Option<+T> = None | Some(value: T)

  /** Why an `InvalidInput`, `Processing` or `Configuration` error was raised. */
  datatype Why =
    | EmptyId                    // get("")
    | NoClassForTable(table: string)
    | UntypedScan                // get_all() on the untyped base
    | DeleteWithoutId
    | MissingRelateArgument
    | InvalidUrl
    | EmptyText
    | FetchFailed                // the HTTP client raised
    | ProcessFailed              // anything else inside an ingestion try
    | ServiceNotConfigured       // the document service has no base URL
    | NoSourceContent
    | NoNoteContent
    | NoNotebookContent
    | GenerateFailed             // the podcast try re-raising what it caught
    | LibraryMissing             // the podcast generator cannot be imported
    | NoProviderForModel(model: string)
    | ProviderNotConfigured(provider: string)

  datatype Error =
    | InvalidInput(why: Why)
    | NotFound(id: string)
    | DatabaseOperation(cause: Error)
    | Processing(reason: Why, caught: Option<Error>)
    | Configuration(why: Why)
    | StoreFailure                // the store gateway itself raised
    | DecodeFailure               // a row did not validate against the schema

  datatype Result<+T> = Ok(value: T) | Err(error: Error) {

    predicate IsFailure() {
      Err?
    }

    function PropagateFailure<U>(): Result<U>
      requires Err?
    {
      Err(error)
    }

    function Extract(): T
      requires Ok?
    {
      value
    }
  }

  /** Python truthiness of an optional string: present and non-empty. */
  predicate Truthy(s: Option<string>) {
    s.Some? && s.value != ""
  }

  /** `a or b` on optional strings. */
  function OrElse(a: Option<string>, b: Option<string>): (r: Option<string>)
    ensures Truthy(a) ==> r == a
    ensures !Truthy(a) ==> r == b
  {
    if Truthy(a) then a else b
  }
}
