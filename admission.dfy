/** The size guard and the HTTP responses both handlers send through the
    Lambda callback. Every response carries empty headers, so they are not
    modelled. */
module Admission {

  /** The largest accepted value of object-sizeof's estimate, in bytes. */
  const MaxPayloadSize: nat := 1048576

  const TooLargeMessage: string := "Your log payload is too large. Maximum size is 1048576 bytes."

  /** The guard is a strict comparison: an estimate of exactly
      MaxPayloadSize still passes. */
  predicate Oversized(size: nat) {
    size > MaxPayloadSize
  }

  datatype Body =
    | NullBody                  // body: null
    | EmptyBody                 // body: ''
    | ErrorBody(error: string)  // JSON.stringify({"error": ...})
    | JoiErrorBody              // JSON.stringify of Joi's error object (library output)
    | UuidBody(uuid: string)    // JSON.stringify({uuid: ...})

  datatype Response = Response(statusCode: nat, body: Body)

  const PayloadTooLarge: Response := Response(413, ErrorBody(TooLargeMessage))
}
