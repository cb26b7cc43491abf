/** The HTTP shell both handlers run in, reduced to data: a request carries its
    method (`verb`) and what `req.json()` made of its body; a response carries a
    status and the JSON object (or text) it sends. */
module Http {
  import opened Prelude

  /** What `req.json()` gives: an exception (`NotJson`), the JSON literal `null`
      (which the handlers cannot destructure), or a value whose fields they read. */
  datatype Payload<B> = NotJson | JsonNull | Json(fields: B)

  datatype Request<B> = Request(verb: string, body: Payload<B>)

  datatype Body =
    | PlainText(text: string)
      /** `{ error }` */
    | Error(error: string)
      /** `{ uploadUrl, publicUrl, objectKey, expires }` */
    | UploadGranted(uploadUrl: string, publicUrl: string, objectKey: string, expires: nat)
      /** `{ ok: true, objectKey, simulated: true }` */
    | DeleteSimulated(objectKey: string)
      /** `{ ok: true, objectKey }` */
    | Deleted(objectKey: string)
      /** `{ error, status, details }` */
    | DeleteFailed(error: string, status: int, details: string)

  datatype Response = Response(status: int, body: Body)

  /** The plain-text 405 both handlers send for any method but POST. */
  const MethodNotAllowed := Response(405, PlainText("Method not allowed"))

  /** The 400 both handlers send when the body is not JSON. */
  const InvalidJson := Response(400, Error("Invalid JSON body"))

  /** What the standard-library server answers when a handler throws. */
  const InternalServerError := Response(500, PlainText("Internal Server Error"))

  /** Whether `fetch` reports a status as `ok`. */
  predicate IsOkStatus(status: int)
  {
    200 <= status <= 299
  }
}
