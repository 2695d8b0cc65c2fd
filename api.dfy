/** The error responses of the Express routes, as values. Messages and HTTP
    status codes are fixed by the error kind and are not repeated here. */
module Api {
  import opened Pii

  /** The request fields whose length the blessing gate limits. */
  datatype Field = BlessingText | CodePhrase | OptionalNote

  /** Why a request failed validation (the `details` of VALIDATION_ERROR). */
  datatype Violation =
    | MissingFields(keychainIdOk: bool, blessingTextOk: bool, codePhraseOk: bool)
    | TooLong(field: Field, maxLength: nat, providedLength: nat)
    | MissingParams
    | MissingReportFields

  datatype ApiError =
    | ValidationError(violation: Violation)            // 400 VALIDATION_ERROR
    | PiiDetected(patterns: seq<PatternName>)          // 400 PII_DETECTED
    | RateLimitExceeded(retryAfter: int)               // 429 RATE_LIMIT_EXCEEDED
    | NotFound                                         // 404 NOT_FOUND
    | InternalError                                    // 500 INTERNAL_ERROR
}
