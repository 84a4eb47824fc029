/** The action results the handlers return and the status code each one carries. */
module Mvc {
  import opened Entities

  /** One ModelStateDictionary entry: a key and an error message. */
  datatype ModelError = ModelError(key: string, message: string)

  datatype ActionResult<T> =
    | Ok(value: T)                                        // OkObjectResult
    | NotFound                                            // NotFoundResult
    | UnprocessableEntity(errors: seq<ModelError>)        // UnprocessableEntityObjectResult(ModelState)
    | BadRequest(errors: seq<ModelError>)                 // BadRequestObjectResult(ModelState)
    | CreatedAtRoute(routeName: string, authorId: Guid, bookId: Guid, value: T)

  function StatusCode<T>(r: ActionResult<T>): (code: int)
    ensures code in {200, 201, 400, 404, 422}
  {
    match r
    case Ok(_) => 200
    case NotFound => 404
    case UnprocessableEntity(_) => 422
    case BadRequest(_) => 400
    case CreatedAtRoute(_, _, _, _) => 201
  }
}
