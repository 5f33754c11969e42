/** The HTTP exceptions the services throw, with their messages. */
module Errors {

  datatype HttpError =
    | BadRequest(message: string)    // 400
    | NotFound(message: string)      // 404
    | Unauthorized(message: string)  // 401
  {
    function StatusCode(): nat {
      match this
      case BadRequest(_) => 400
      case NotFound(_) => 404
      case Unauthorized(_) => 401
    }
  }

  /** `"text"` with double quotes around it, as the messages quote values. */
  function Quoted(s: string): string {
    "\"" + s + "\""
  }
}
