/**
 * The exceptions the service throws or that reach it from the web layer, and
 * the global handler that turns each into an HTTP status and a response body.
 */
module Exceptions {
  import opened Wrappers

  /** One failed field or parameter constraint: where, and the constraint's message. */
  datatype FieldError = FieldError(field: string, message: string)

  /** The cause of an unreadable body when a value has the wrong format. */
  datatype InvalidFormat = InvalidFormat(fieldName: string, targetType: string)

  /** Every exception kind the handler distinguishes; anything else is `OtherException`. */
  datatype AppException =
    | ValidationException(message: string)
    | IllegalArgumentException(message: string)
    | NotFoundException(message: string)
    | ForbiddenException(message: string)
    | ConflictException(message: string)
    | BadRequestException(message: string)
    | MethodArgumentNotValid(fieldErrors: seq<FieldError>)
    | ConstraintViolation(violations: seq<FieldError>)
    | MessageNotReadable(invalidFormat: Option<InvalidFormat>)
    | MissingParameter(parameterName: string)
    | TypeMismatch(name: string, requiredType: Option<string>)
    | DataIntegrityViolation(message: string)
    | OtherException(message: string)
  {
    /** The six application exceptions, whose handlers echo the exception's own message. */
    predicate CarriesMessage() {
      ValidationException? || IllegalArgumentException? || NotFoundException? ||
      ForbiddenException? || ConflictException? || BadRequestException?
    }

    /** The two bulk validation failures, answered with a list of errors. */
    predicate IsBulk() {
      MethodArgumentNotValid? || ConstraintViolation?
    }
  }

  /** The response map: either the single entry `error`, or the four-entry bulk form. */
  datatype Body =
    | Single(entries: map<string, string>)
    | Bulk(errors: seq<string>, message: string, timestamp: int, status: string)

  datatype Response = Response(status: int, body: Body)

  /** The body `Map.of("error", message)`. */
  function ErrorBody(message: string): (b: Body)
    ensures b.Single? && b.entries.Keys == {"error"} && b.entries["error"] == message
  {
    Single(map["error" := message])
  }

  /** `String.format("%s: %s", field, message)` for each field error. */
  function Describe(errs: seq<FieldError>): (r: seq<string>)
    ensures |r| == |errs|
    ensures forall i :: 0 <= i < |errs| ==> r[i] == errs[i].field + ": " + errs[i].message
  {
    seq(|errs|, i requires 0 <= i < |errs| => errs[i].field + ": " + errs[i].message)
  }

  /** The message of the unreadable-body handler. */
  function NotReadableMessage(cause: Option<InvalidFormat>): string {
    match cause
    case None => "Invalid JSON in request body"
    case Some(f) => "Invalid format for field '" + f.fieldName + "': expected " + f.targetType
  }

  /**
   * The global exception handler: the response for an exception, given the
   * clock reading `now` that the bulk handlers put in their body.
   */
  function Handle(ex: AppException, now: int): (r: Response)
    ensures ex.NotFoundException? <==> r.status == 404
    ensures ex.ForbiddenException? <==> r.status == 403
    ensures ex.ConflictException? || ex.DataIntegrityViolation? <==> r.status == 409
    ensures ex.OtherException? <==> r.status == 500
    ensures r.status == 400 <==>
      ex.ValidationException? || ex.IllegalArgumentException? || ex.BadRequestException? ||
      ex.IsBulk() || ex.MessageNotReadable? || ex.MissingParameter? || ex.TypeMismatch?
    ensures r.body.Bulk? <==> ex.IsBulk()
    ensures ex.CarriesMessage() ==> r.body == ErrorBody(ex.message)
    ensures ex.OtherException? ==> r.body == ErrorBody("Internal server error")
    ensures ex.DataIntegrityViolation? ==> r.body == ErrorBody("Data integrity violation")
    ensures r.body.Bulk? ==> r.body.timestamp == now && r.body.status == "BAD_REQUEST"
  {
    match ex
    case ValidationException(m) => Response(400, ErrorBody(m))
    case IllegalArgumentException(m) => Response(400, ErrorBody(m))
    case NotFoundException(m) => Response(404, ErrorBody(m))
    case ForbiddenException(m) => Response(403, ErrorBody(m))
    case ConflictException(m) => Response(409, ErrorBody(m))
    case BadRequestException(m) => Response(400, ErrorBody(m))
    case MethodArgumentNotValid(errs) =>
      Response(400, Bulk(Describe(errs), "Validation failed", now, "BAD_REQUEST"))
    case ConstraintViolation(errs) =>
      Response(400, Bulk(Describe(errs), "Constraint validation failed", now, "BAD_REQUEST"))
    case MessageNotReadable(cause) => Response(400, ErrorBody(NotReadableMessage(cause)))
    case MissingParameter(name) =>
      Response(400, ErrorBody("Required parameter is missing: " + name))
    case TypeMismatch(name, ty) =>
      Response(400, ErrorBody("Parameter '" + name + "' must be of type '" + ty.GetOr("unknown") + "'"))
    case DataIntegrityViolation(_) => Response(409, ErrorBody("Data integrity violation"))
    case OtherException(_) => Response(500, ErrorBody("Internal server error"))
  }

  /** Every response status is one of the five the handler uses. */
  lemma StatusIsKnown(ex: AppException, now: int)
    ensures Handle(ex, now).status in {400, 403, 404, 409, 500}
  {
  }

  /** Every response that is not a bulk validation answer is a single-entry `error` map. */
  lemma SingleErrorShape(ex: AppException, now: int)
    requires !ex.IsBulk()
    ensures Handle(ex, now).body.Single?
    ensures Handle(ex, now).body.entries.Keys == {"error"}
  {
  }

  /** The response does not depend on the clock unless it is a bulk validation answer. */
  lemma ClockOnlyInBulk(ex: AppException, t1: int, t2: int)
    requires !ex.IsBulk()
    ensures Handle(ex, t1) == Handle(ex, t2)
  {
  }
}
