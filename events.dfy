/** The journey events as the client handles them: the snake_case records
    App.tsx builds and reads back from the events table. */
module Events {
  import opened Common
  import opened Js

  /** A value as it comes from the database: the ids of the events table
      are numbers, the ids the client makes are strings. */
  datatype RawValue = Num(n: int) | Str(s: string)

  /** `String(v)`. */
  function Stringify(v: RawValue): string {
    match v
    case Num(n) => NumberToString(n)
    case Str(s) => s
  }

  /** `String(v)` keeps a string, and turns a number below 10^21 in
      magnitude into text that `parseInt` reads back as that number. */
  lemma StringifyReadsBack(v: RawValue)
    ensures v.Str? ==> Stringify(v) == v.s
    ensures v.Num? && -ExponentFrom < v.n < ExponentFrom ==> ParseInt(Stringify(v)) == Some(v.n)
  {
    if v.Num? && -ExponentFrom < v.n < ExponentFrom {
      ParseIntOfNumberToString(v.n);
    }
  }

  /** A history event (`id`, `keychain_id`, `timestamp`, `from_name`,
      `to_name`, `prompt_key`, `prompt_text`, `next_prompt_key`,
      `next_prompt_text`). The keychain id is kept as it came: a string when
      the client made the event, whatever the database holds otherwise. */
  datatype HistoryEvent = HistoryEvent(
    id: string,
    keychainId: RawValue,
    timestamp: int,
    fromName: string,
    toName: string,
    promptKey: string,
    promptText: string,
    nextPromptKey: Option<string>,
    nextPromptText: Option<string>)

  /** A row of the events table, with the id the database gave it. */
  datatype EventRow = EventRow(
    id: RawValue,
    keychainId: RawValue,
    timestamp: int,
    fromName: string,
    toName: string,
    promptKey: string,
    promptText: string,
    nextPromptKey: Option<string>,
    nextPromptText: Option<string>)

  /** `{ ...event, id: String(event.id) }`: the row with its id turned into a
      string and every other field kept. */
  function EventOf(row: EventRow): (e: HistoryEvent)
    ensures e.id == Stringify(row.id)
    ensures RowOf(e, row.id) == row
  {
    HistoryEvent(Stringify(row.id), row.keychainId, row.timestamp, row.fromName, row.toName,
                 row.promptKey, row.promptText, row.nextPromptKey, row.nextPromptText)
  }

  /** The row holding an event's fields under a database id. */
  function RowOf(e: HistoryEvent, id: RawValue): EventRow {
    EventRow(id, e.keychainId, e.timestamp, e.fromName, e.toName,
             e.promptKey, e.promptText, e.nextPromptKey, e.nextPromptText)
  }
}
