/** What a service call of either microservice answers with: an HTTP status
    and an optional body, as Spring's ResponseEntity carries them, or the
    exception that `Optional.get()` throws when an id does not resolve. */
module Http {

  datatype Option<T> = None | Some(value: T)

  /** The HttpStatus values the two services use: 200 OK, 201 CREATED,
      400 BAD_REQUEST, 403 FORBIDDEN and 406 NOT_ACCEPTABLE. */
  datatype Status = Ok | Created | BadRequest | Forbidden | NotAcceptable

  /** `Reply` is a ResponseEntity (`body` is `None` where the source builds
      one without a body); `NoSuchElement` is the NoSuchElementException
      raised by `Optional.get()` on `id`, which ends the call. */
  datatype Outcome<T> = Reply(status: Status, body: Option<T>) | NoSuchElement(id: int)
}
