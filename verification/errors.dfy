/** The central error translator of middleware/error.js, and the outcome type every handler returns.

    An error reaches the translator as an `ErrorValue`: the few properties of the JavaScript error
    object that the translator reads. `statusCode` and `message` are those that survive the copy
    `{ ...err }` at the top of the translator; a property the copy loses is `None`. */
module Errors {
  import opened Wrappers
  import Text

  datatype ErrorValue = ErrorValue(
    name: string,             // err.name: "CastError", "ValidationError", "Error", ...
    code: Option<int>,        // err.code, set by the database driver (11000 for a duplicate key)
    value: string,            // err.value, the value a CastError could not cast
    errors: seq<string>,      // the messages of err.errors, one per failed path (ValidationError)
    statusCode: Option<int>,  // statusCode kept by the copy
    message: Option<string>)  // message kept by the copy

  /** The `error` field of the response: a single message, or the list a ValidationError carries. */
  datatype Message = Text(text: string) | Texts(texts: seq<string>)

  /** The response the translator sends: `res.status(status).json({ success, error })`. */
  datatype ErrorReply = ErrorReply(status: int, success: bool, error: Message)

  const CastErrorPrefix := "Resource not found with id of "
  const DuplicateMessage := "Duplicate field value."
  const ServerError := "Server Error"
  const DuplicateKeyCode := 11000

  /** `new ErrorResponse(message, status)`, as handlers pass it to `next`. */
  function ErrorResponse(message: string, status: int): ErrorValue {
    ErrorValue("Error", None, "", [], Some(status), Some(message))
  }

  /** An error thrown with no status of its own: `throw new Error()`, a `TypeError`, or a failure
      reported by an external service. */
  function Thrown(name: string): ErrorValue {
    ErrorValue(name, None, "", [], None, None)
  }

  /** The error Mongoose raises when an identifier cannot be cast to an ObjectId. */
  function CastError(value: string): ErrorValue {
    ErrorValue("CastError", None, value, [], None, None)
  }

  /** The driver's error for a write that violates a unique index. */
  function DuplicateKey(): ErrorValue {
    ErrorValue("MongoError", Some(DuplicateKeyCode), "", [], None, None)
  }

  /** The error Mongoose raises when schema validation fails, with one message per failed path. */
  function ValidationError(messages: seq<string>): ErrorValue {
    ErrorValue("ValidationError", None, "", messages, None, None)
  }

  /** The intermediate `error` object of the translator: a status and a message, each possibly absent. */
  datatype Shape = Shape(statusCode: Option<int>, message: Option<Message>)

  /** `error.statusCode || 500`: an absent or zero status gives 500. */
  function ReplyStatus(shape: Shape): int {
    if shape.statusCode.Some? && shape.statusCode.value != 0 then shape.statusCode.value else 500
  }

  /** `error.message || 'Server Error'`: an absent or empty message gives "Server Error"; an array
      of messages is never falsy. */
  function ReplyMessage(shape: Shape): Message {
    match shape.message
    case Some(Texts(ts)) => Texts(ts)
    case Some(Text(t)) => if t == "" then Text(ServerError) else Text(t)
    case None => Text(ServerError)
  }

  /** The translator. Its three rules are applied in the order of the source, each overriding the
      result of the ones before it; the contract states the same thing as a priority list. */
  function Translate(err: ErrorValue): (r: ErrorReply)
    ensures !r.success
    ensures err.name == "ValidationError" ==> r.status == 400 && r.error == Texts(err.errors)
    ensures err.name != "ValidationError" && err.code == Some(DuplicateKeyCode) ==>
              r.status == 400 && r.error == Text(DuplicateMessage)
    ensures err.name == "CastError" && err.code != Some(DuplicateKeyCode) ==>
              r.status == 404 && r.error == Text(CastErrorPrefix + err.value)
    ensures err.name !in {"ValidationError", "CastError"} && err.code != Some(DuplicateKeyCode) ==>
              && (r.status == 500 <==> err.statusCode.None? || err.statusCode.value in {0, 500})
              && (r.status != 500 ==> Some(r.status) == err.statusCode)
              && (r.error == Text(ServerError) <==> err.message.None? || err.message.value in {"", ServerError})
              && (r.error != Text(ServerError) ==> r.error == Text(err.message.value))
  {
    var copied := Shape(err.statusCode, if err.message.Some? then Some(Text(err.message.value)) else None);
    var afterCast :=
      if err.name == "CastError" then Shape(Some(404), Some(Text(CastErrorPrefix + err.value))) else copied;
    var afterDuplicate :=
      if err.code == Some(DuplicateKeyCode) then Shape(Some(400), Some(Text(DuplicateMessage))) else afterCast;
    var last :=
      if err.name == "ValidationError" then Shape(Some(400), Some(Texts(err.errors))) else afterDuplicate;
    ErrorReply(ReplyStatus(last), false, ReplyMessage(last))
  }

  /** A cast failure's message names the offending value. */
  lemma CastMessageNamesValue(value: string)
    ensures Translate(CastError(value)).status == 404
    ensures Text.Contains(Translate(CastError(value)).error.text, value)
  {
    var t := CastErrorPrefix + value;
    assert Text.OccursAt(t, value, |CastErrorPrefix|) by {
      assert t[|CastErrorPrefix|..|CastErrorPrefix| + |value|] == value;
    }
  }

  /** A handler's `ErrorResponse` keeps its status whether or not the copy `{ ...err }` keeps its
      message. A kept non-empty message is sent as it is; a lost one becomes "Server Error". */
  lemma ErrorResponseReply(message: string, status: int)
    requires status != 0
    ensures Translate(ErrorResponse(message, status)).status == status
    ensures message != "" ==> Translate(ErrorResponse(message, status)).error == Text(message)
    ensures Translate(ErrorResponse(message, status).(message := None)) == ErrorReply(status, false, Text(ServerError))
  {
  }

  /** `throw new Error()` carries neither status nor message and becomes 500 "Server Error". */
  lemma BareErrorIsServerError()
    ensures Translate(Thrown("Error")) == ErrorReply(500, false, Text(ServerError))
  {
  }

  /** What a handler produces: a success with its status and payload, or an error for the translator. */
  datatype Outcome<T> = Ok(status: int, data: T) | Err(error: ErrorValue) {

    /** The HTTP status the client receives. */
    function Status(): int {
      match this
      case Ok(s, _) => s
      case Err(e) => Translate(e).status
    }
  }

  /** The status a handler's `ErrorResponse` produces. */
  function Rejected<T>(message: string, status: int): (o: Outcome<T>)
    requires status != 0
    ensures o.Err? && o.Status() == status
  {
    Err(ErrorResponse(message, status))
  }
}
