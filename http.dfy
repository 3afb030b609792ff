/** What the route handlers answer: a status code and a JSON body. */
module Http {
  import opened Wrappers

  datatype Body<T> =
    | Data(value: T)
    | Rows(values: seq<T>)
      /** `{ error, details?, existingMember? }` */
    | Problem(error: string, details: Option<string>, existing: Option<T>)
      /** `{ message }` */
    | Note(message: string)
      /** An error the handler does not catch: the framework's error handler answers it. */
    | Unhandled(message: string)

  datatype Reply<T> = Reply(status: int, body: Body<T>)

  function Success<T>(value: T): Reply<T> {
    Reply(200, Data(value))
  }

  function Fail<T>(status: int, error: string): Reply<T> {
    Reply(status, Problem(error, None, None))
  }
}
