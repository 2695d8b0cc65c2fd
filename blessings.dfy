/** The blessing routes: POST /blessings (rate limit, field checks, PII
    gate, the row that is inserted), PATCH /blessings/:id/hide and
    POST /reports. The database is a value: the table of blessings is a map
    from id to row, and what an insert returns is an input. */
module Blessings {
  import opened Common
  import opened Js
  import opened Pii
  import opened Api
  import opened RateLimit

  const MaxBlessingText: nat := 15
  const MaxCodePhrase: nat := 10
  const MaxOptionalNote: nat := 120

  /** The JSON body of POST /blessings; None stands for an absent field. */
  datatype BlessingRequest = BlessingRequest(
    keychainId: Option<string>,
    stationNumber: Option<int>,
    blessingText: Option<string>,
    codePhrase: Option<string>,
    optionalNote: Option<string>,
    visibility: Option<string>)

  /** A row of the `blessings` table. */
  datatype BlessingRow = BlessingRow(
    id: int,
    keychainId: string,
    stationNumber: int,
    blessingText: string,
    codePhrase: string,
    optionalNote: Option<string>,
    visibility: string,
    isHidden: bool,
    createdAt: string)

  // ---------------------------------------------------------------------
  // POST /blessings
  // ---------------------------------------------------------------------

  /** The three required fields are truthy (present and non-empty). */
  predicate FieldsPresent(p: BlessingRequest) {
    Truthy(p.keychainId) && Truthy(p.blessingText) && Truthy(p.codePhrase)
  }

  /** The length limits, in UTF-16 code units; a falsy note is not checked. */
  predicate WithinLimits(p: BlessingRequest)
    requires FieldsPresent(p)
  {
    && Length(p.blessingText.value) <= MaxBlessingText
    && Length(p.codePhrase.value) <= MaxCodePhrase
    && (Truthy(p.optionalNote) ==> Length(p.optionalNote.value) <= MaxOptionalNote)
  }

  /** The validation steps, in the order the route runs them: the first one
      that fails is reported. */
  function CheckFields(p: BlessingRequest): (v: Option<Violation>)
    ensures v.None? <==> FieldsPresent(p) && WithinLimits(p)
    ensures v.Some? && v.value.MissingFields? <==> !FieldsPresent(p)
    ensures !FieldsPresent(p) ==>
              v == Some(MissingFields(Truthy(p.keychainId), Truthy(p.blessingText), Truthy(p.codePhrase)))
    ensures v.Some? && v.value.TooLong? ==>
              && FieldsPresent(p)
              && v.value.providedLength > v.value.maxLength
              && (v.value.field == BlessingText ==>
                    v.value == TooLong(BlessingText, MaxBlessingText, Length(p.blessingText.value)))
              && (v.value.field == CodePhrase ==>
                    && Length(p.blessingText.value) <= MaxBlessingText
                    && v.value == TooLong(CodePhrase, MaxCodePhrase, Length(p.codePhrase.value)))
              && (v.value.field == OptionalNote ==>
                    && Length(p.blessingText.value) <= MaxBlessingText
                    && Length(p.codePhrase.value) <= MaxCodePhrase
                    && Truthy(p.optionalNote)
                    && v.value == TooLong(OptionalNote, MaxOptionalNote, Length(p.optionalNote.value)))
  {
    if !FieldsPresent(p) then
      Some(MissingFields(Truthy(p.keychainId), Truthy(p.blessingText), Truthy(p.codePhrase)))
    else if Length(p.blessingText.value) > MaxBlessingText then
      Some(TooLong(BlessingText, MaxBlessingText, Length(p.blessingText.value)))
    else if Length(p.codePhrase.value) > MaxCodePhrase then
      Some(TooLong(CodePhrase, MaxCodePhrase, Length(p.codePhrase.value)))
    else if Truthy(p.optionalNote) && Length(p.optionalNote.value) > MaxOptionalNote then
      Some(TooLong(OptionalNote, MaxOptionalNote, Length(p.optionalNote.value)))
    else None
  }

  /** The text the PII patterns are run on: blessing, code phrase and note,
      separated by single spaces (an absent note gives a trailing space). */
  function TextToCheck(p: BlessingRequest): string
    requires FieldsPresent(p)
  {
    p.blessingText.value + " " + p.codePhrase.value + " " + OrElse(p.optionalNote, "")
  }

  /** The row inserted for an accepted request, with the id and creation
      time the database and the clock supply. */
  function RowFor(p: BlessingRequest, id: int, createdAt: string): (row: BlessingRow)
    requires FieldsPresent(p)
    ensures row.id == id && row.createdAt == createdAt
    ensures && row.keychainId == p.keychainId.value
            && row.blessingText == p.blessingText.value
            && row.codePhrase == p.codePhrase.value
            && row.optionalNote == p.optionalNote
    ensures p.stationNumber.None? || p.stationNumber.value == 0 ==> row.stationNumber == 1
    ensures p.stationNumber.Some? && p.stationNumber.value != 0 ==>
              row.stationNumber == p.stationNumber.value
    ensures !Truthy(p.visibility) ==> row.visibility == "public"
    ensures Truthy(p.visibility) ==> row.visibility == p.visibility.value
    ensures !row.isHidden
  {
    BlessingRow(
      id,
      p.keychainId.value,
      if p.stationNumber.None? || p.stationNumber.value == 0 then 1 else p.stationNumber.value,
      p.blessingText.value,
      p.codePhrase.value,
      p.optionalNote,
      OrElse(p.visibility, "public"),
      false,
      createdAt)
  }

  /** What POST /blessings answers once the rate limiter has let the request
      through. `insert` is the id the database gives the new row, or None
      when the insert fails. */
  function BlessingOutcome(p: BlessingRequest, insert: Option<int>, createdAt: string)
    : (r: Result<BlessingRow, ApiError>)
    ensures r.Success? <==>
              && FieldsPresent(p) && WithinLimits(p)
              && MatchingNames(PatternOrder, TextToCheck(p)) == []
              && insert.Some?
    ensures CheckFields(p).Some? ==> r == Failure(ValidationError(CheckFields(p).value))
    ensures r.Failure? && r.error.PiiDetected? ==>
              && CheckFields(p).None?
              && r.error.patterns == MatchingNames(PatternOrder, TextToCheck(p))
              && r.error.patterns != []
    ensures CheckFields(p).None? && MatchingNames(PatternOrder, TextToCheck(p)) != [] ==>
              r == Failure(PiiDetected(MatchingNames(PatternOrder, TextToCheck(p))))
    ensures CheckFields(p).None? && MatchingNames(PatternOrder, TextToCheck(p)) == [] && insert.None? ==>
              r == Failure(InternalError)
    ensures r.Success? ==> r.value == RowFor(p, insert.value, createdAt)
  {
    match CheckFields(p)
    case Some(v) => Failure(ValidationError(v))
    case None =>
      var found := MatchingNames(PatternOrder, TextToCheck(p));
      if found != [] then Failure(PiiDetected(found))
      else if insert.None? then Failure(InternalError)
      else Success(RowFor(p, insert.value, createdAt))
  }

  /** The request passes the PII gate exactly when none of the five
      patterns matches its text; when it does not, the patterns reported are
      the matching ones, each once, in the table's order. */
  lemma PiiGate(p: BlessingRequest, insert: Option<int>, createdAt: string)
    requires FieldsPresent(p) && WithinLimits(p)
    ensures var r := BlessingOutcome(p, insert, createdAt);
            && (r.Success? <==> insert.Some? && forall name :: !Matches(name, TextToCheck(p)))
            && (r.Failure? && r.error.PiiDetected? ==>
                  && (forall name :: name in r.error.patterns <==> Matches(name, TextToCheck(p)))
                  && Subsequence(r.error.patterns, PatternOrder)
                  && Distinct(r.error.patterns))
  {
    ScanSpec(TextToCheck(p));
  }

  /** A request whose text trips a pattern is refused with PII_DETECTED
      whatever the database would have done: nothing is inserted. */
  lemma PiiCheckedBeforeInsert(p: BlessingRequest, name: PatternName,
                               insert1: Option<int>, insert2: Option<int>, createdAt: string)
    requires FieldsPresent(p) && WithinLimits(p) && Matches(name, TextToCheck(p))
    ensures BlessingOutcome(p, insert1, createdAt).Failure?
    ensures BlessingOutcome(p, insert1, createdAt).error.PiiDetected?
    ensures BlessingOutcome(p, insert1, createdAt) == BlessingOutcome(p, insert2, createdAt)
  {
    MatchingNamesSpec(PatternOrder, TextToCheck(p));
  }

  /** POST /blessings: the rate limiter, then the field checks, then the PII
      scan, then the insert. */
  method PostBlessing(limiter: RateLimiter, ip: Option<string>, now: int,
                      p: BlessingRequest, insert: Option<int>, createdAt: string)
    returns (r: Result<BlessingRow, ApiError>)
    requires limiter.Valid()
    modifies limiter
    ensures limiter.Valid()
    ensures var key := OrElse(ip, "unknown");
            var d := Decide(Lookup(old(limiter.store), key), now);
            && limiter.store == old(limiter.store)[key := Next(Lookup(old(limiter.store), key), now)]
            && (d.Rejected? ==> r == Failure(RateLimitExceeded(d.retryAfter)))
            && (d.Allowed? ==> r == BlessingOutcome(p, insert, createdAt))
  {
    var d := limiter.Check(ip, now);
    if d.Rejected? {
      return Failure(RateLimitExceeded(d.retryAfter));
    }
    var violation := CheckFields(p);
    if violation.Some? {
      return Failure(ValidationError(violation.value));
    }
    var detected := DetectPatterns(TextToCheck(p));
    if |detected| > 0 {
      return Failure(PiiDetected(detected));
    }
    if insert.None? {
      return Failure(InternalError);
    }
    r := Success(RowFor(p, insert.value, createdAt));
  }

  // ---------------------------------------------------------------------
  // PATCH /blessings/:id/hide
  // ---------------------------------------------------------------------

  /** Every row is stored under its own id. */
  predicate KeyedById(rows: map<int, BlessingRow>) {
    forall id | id in rows :: rows[id].id == id
  }

  /** The update `is_hidden := isHidden` on the row whose id is `Number(id)`
      (None when the path segment is not an integer, so that no row
      matches); `dbError` is a failing update. Answers the new table and
      the response. */
  function Hide(rows: map<int, BlessingRow>, id: Option<int>, isHidden: bool, dbError: bool)
    : (out: (map<int, BlessingRow>, Result<BlessingRow, ApiError>))
    ensures dbError ==> out == (rows, Failure(InternalError))
    ensures !dbError && (id.None? || id.value !in rows) ==> out == (rows, Failure(NotFound))
    ensures out.1.Success? <==> !dbError && id.Some? && id.value in rows
    ensures out.1.Success? ==>
              && out.1.value == rows[id.value].(isHidden := isHidden)
              && out.0 == rows[id.value := out.1.value]
    ensures out.1.Failure? ==> out.0 == rows
  {
    if dbError then (rows, Failure(InternalError))
    else if id.None? || id.value !in rows then (rows, Failure(NotFound))
    else
      var updated := rows[id.value].(isHidden := isHidden);
      (rows[id.value := updated], Success(updated))
  }

  /** Hiding changes only the flag of the one row: every other row, and
      every other field of that row, is kept, and rows stay under their ids. */
  lemma HideChangesOnlyFlag(rows: map<int, BlessingRow>, id: Option<int>, isHidden: bool, dbError: bool)
    requires KeyedById(rows)
    ensures var after := Hide(rows, id, isHidden, dbError).0;
            && KeyedById(after)
            && after.Keys == rows.Keys
            && forall k | k in rows :: after[k].(isHidden := rows[k].isHidden) == rows[k]
  {
  }

  /** Hiding twice is hiding once: the second request finds the row and
      leaves the table as the first one left it. */
  lemma HideIdempotent(rows: map<int, BlessingRow>, id: Option<int>, isHidden: bool)
    ensures var (once, r1) := Hide(rows, id, isHidden, false);
            var (twice, r2) := Hide(once, id, isHidden, false);
            twice == once && r2 == r1
  {
  }

  // ---------------------------------------------------------------------
  // POST /reports
  // ---------------------------------------------------------------------

  datatype ReportRequest = ReportRequest(
    blessingId: Option<int>, reason: Option<string>, description: Option<string>)

  datatype ReportStatus = Pending | Reviewed | Dismissed

  datatype ReportRow = ReportRow(
    id: int, blessingId: int, reason: string, description: Option<string>,
    status: ReportStatus, createdAt: string)

  /** POST /reports: a blessing id of 0 or none, or a falsy reason, is a
      validation error; otherwise the report is inserted as pending.
      `insert` is the id the database gives the row, None when it fails. */
  function CreateReport(req: ReportRequest, insert: Option<int>, createdAt: string)
    : (r: Result<ReportRow, ApiError>)
    ensures (req.blessingId.None? || req.blessingId.value == 0 || !Truthy(req.reason)) ==>
              r == Failure(ValidationError(MissingReportFields))
    ensures r.Success? <==>
              req.blessingId.Some? && req.blessingId.value != 0 && Truthy(req.reason) && insert.Some?
    ensures req.blessingId.Some? && req.blessingId.value != 0 && Truthy(req.reason) && insert.None? ==>
              r == Failure(InternalError)
    ensures r.Success? ==>
              && r.value.id == insert.value
              && r.value.createdAt == createdAt
              && r.value.status == Pending
              && r.value.blessingId == req.blessingId.value
              && r.value.reason == req.reason.value
              && r.value.description == req.description
  {
    if req.blessingId.None? || req.blessingId.value == 0 || !Truthy(req.reason) then
      Failure(ValidationError(MissingReportFields))
    else if insert.None? then Failure(InternalError)
    else Success(ReportRow(insert.value, req.blessingId.value, req.reason.value,
                           req.description, Pending, createdAt))
  }
}
