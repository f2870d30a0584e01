/** The error responses of the booking server: an HTTP status and the JSON `error` text. */
module Http {
  datatype HttpError = HttpError(status: nat, message: string)
}
