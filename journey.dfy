/** The journey screens of App.tsx: the store of histories per keychain,
    how it is loaded and appended to, how the `?id=` parameter selects a
    keychain, and how a new holder's event is derived from the end of the
    chain. Randomness, the clock and UUIDs are parameters. */
module Journey {
  import opened Common
  import opened Js
  import opened Events
  import opened Constants

  /** The giver and the reason of the first event of a chain. */
  const OriginGiver: string := "大象女士"
  const FirstMeetingText: string := "這是一次偶然的相遇"
  /** The reason used when the previous event carries no next prompt. */
  const FallbackText: string := "命運的安排"
  const NoHolder: string := "沒有人"

  datatype Screen = Admin | Landing | Returning | NewInput | Explanation | History

  /** `GlobalStore`: the history of each keychain, keyed by `String(id)`. */
  type Store = map<string, seq<HistoryEvent>>

  /** `globalStore[k] || []` */
  function HistoryOf(store: Store, key: string): (h: seq<HistoryEvent>)
    ensures key in store ==> h == store[key]
    ensures key !in store ==> h == []
  {
    if key in store then store[key] else []
  }

  // ---------------------------------------------------------------------
  // Loading and saving
  // ---------------------------------------------------------------------

  /** `saveEvent`, optimistic part: a store in which the event is appended
      to its keychain's history. */
  function Appended(store: Store, e: HistoryEvent): (s: Store)
    ensures s.Keys == store.Keys + {Stringify(e.keychainId)}
    ensures s[Stringify(e.keychainId)] == HistoryOf(store, Stringify(e.keychainId)) + [e]
    ensures forall k | k in store && k != Stringify(e.keychainId) :: s[k] == store[k]
  {
    var key := Stringify(e.keychainId);
    store[key := HistoryOf(store, key) + [e]]
  }

  /** The store made from a list of rows: each row, turned into an event,
      appended to the history of its keychain, in the order of the list. */
  function Group(rows: seq<EventRow>): Store {
    if rows == [] then map[]
    else Appended(Group(rows[..|rows| - 1]), EventOf(rows[|rows| - 1]))
  }

  /** No keychain in a grouped store has an empty history: a key is only
      made for a row, and that row's event goes into it. */
  lemma {:induction false} GroupHasNoEmptyHistory(rows: seq<EventRow>)
    ensures forall k | k in Group(rows) :: Group(rows)[k] != []
  {
    if rows != [] {
      GroupHasNoEmptyHistory(rows[..|rows| - 1]);
    }
  }

  /** `processDataToStore`: the `forEach` that builds the store. */
  method ProcessDataToStore(rows: seq<EventRow>) returns (store: Store)
    ensures store == Group(rows)
  {
    store := map[];
    for i := 0 to |rows|
      invariant store == Group(rows[..i])
    {
      var event := rows[i];
      var kId := Stringify(event.keychainId);
      if kId !in store {
        store := store[kId := []];
      }
      store := store[kId := store[kId] + [EventOf(event)]];
      assert rows[..i + 1][..i] == rows[..i];
    }
    assert rows[..|rows|] == rows;
  }

  /** The rows of a list that belong to one keychain, in list order. */
  function RowsFor(rows: seq<EventRow>, key: string): seq<EventRow> {
    if rows == [] then []
    else
      var last := rows[|rows| - 1];
      RowsFor(rows[..|rows| - 1], key) + (if Stringify(last.keychainId) == key then [last] else [])
  }

  function EventsOf(rows: seq<EventRow>): (es: seq<HistoryEvent>)
    ensures |es| == |rows|
    ensures forall i :: 0 <= i < |rows| ==> es[i] == EventOf(rows[i])
  {
    if rows == [] then [] else EventsOf(rows[..|rows| - 1]) + [EventOf(rows[|rows| - 1])]
  }

  /** Grouping keeps exactly the keychains that occur in the rows. */
  lemma {:induction false} GroupKeys(rows: seq<EventRow>, key: string)
    ensures key in Group(rows) <==> exists i :: 0 <= i < |rows| && Stringify(rows[i].keychainId) == key
  {
    if rows != [] {
      var init, last := rows[..|rows| - 1], rows[|rows| - 1];
      GroupKeys(init, key);
      if key in Group(init) {
        var i :| 0 <= i < |init| && Stringify(init[i].keychainId) == key;
        assert rows[i] == init[i];
      }
      if exists i :: 0 <= i < |rows| && Stringify(rows[i].keychainId) == key {
        var i :| 0 <= i < |rows| && Stringify(rows[i].keychainId) == key;
        if i < |init| {
          assert init[i] == rows[i];
        }
      }
    }
  }

  /** The history of each keychain is its rows, in their relative order, as
      events. */
  lemma {:induction false} GroupIsFilter(rows: seq<EventRow>, key: string)
    ensures HistoryOf(Group(rows), key) == EventsOf(RowsFor(rows, key))
  {
    if rows != [] {
      var init, last := rows[..|rows| - 1], rows[|rows| - 1];
      GroupIsFilter(init, key);
      if Stringify(last.keychainId) == key {
        assert EventsOf(RowsFor(rows, key)) == EventsOf(RowsFor(init, key)) + [EventOf(last)];
      } else {
        assert RowsFor(rows, key) == RowsFor(init, key);
      }
    }
  }

  /** The number of events in a store, over all keychains. */
  ghost function TotalEvents(store: Store): nat
    decreases |store.Keys|
  {
    if store == map[] then 0
    else
      var k :| k in store;
      |store[k]| + TotalEvents(store - {k})
  }

  /** The total may be counted starting from any keychain. */
  lemma {:induction false} TotalEventsRemove(store: Store, key: string)
    requires key in store
    ensures TotalEvents(store) == |store[key]| + TotalEvents(store - {key})
    decreases |store.Keys|
  {
    var k :| k in store && TotalEvents(store) == |store[k]| + TotalEvents(store - {k});
    if k != key {
      var rest, restKey := store - {k}, store - {key};
      assert |rest.Keys| < |store.Keys| by {
        assert rest.Keys + {k} == store.Keys && k !in rest.Keys;
      }
      assert |restKey.Keys| < |store.Keys| by {
        assert restKey.Keys + {key} == store.Keys && key !in restKey.Keys;
      }
      TotalEventsRemove(rest, key);
      TotalEventsRemove(restKey, k);
      assert rest - {key} == restKey - {k};
      assert rest[key] == store[key] && restKey[k] == store[k];
    }
  }

  /** Appending an event adds one to the total. */
  lemma TotalEventsAppended(store: Store, e: HistoryEvent)
    ensures TotalEvents(Appended(store, e)) == TotalEvents(store) + 1
  {
    var key := Stringify(e.keychainId);
    var after := Appended(store, e);
    TotalEventsRemove(after, key);
    assert after - {key} == store - {key};
    if key in store {
      TotalEventsRemove(store, key);
    } else {
      assert store - {key} == store;
    }
  }

  /** Grouping loses no row and invents none. */
  lemma {:induction false} GroupKeepsEveryRow(rows: seq<EventRow>)
    ensures TotalEvents(Group(rows)) == |rows|
  {
    if rows != [] {
      GroupKeepsEveryRow(rows[..|rows| - 1]);
      TotalEventsAppended(Group(rows[..|rows| - 1]), EventOf(rows[|rows| - 1]));
    }
  }

  /** The record sent to the events table: every field of the event but its
      id, with a falsy next prompt sent as null. */
  datatype Payload = Payload(
    keychainId: RawValue,
    timestamp: int,
    fromName: string,
    toName: string,
    promptKey: string,
    promptText: string,
    nextPromptKey: Option<string>,
    nextPromptText: Option<string>)

  function PayloadOf(e: HistoryEvent): (p: Payload)
    ensures p.nextPromptKey == NullIfFalsy(e.nextPromptKey)
    ensures p.nextPromptText == NullIfFalsy(e.nextPromptText)
  {
    Payload(e.keychainId, e.timestamp, e.fromName, e.toName, e.promptKey, e.promptText,
            NullIfFalsy(e.nextPromptKey), NullIfFalsy(e.nextPromptText))
  }

  /** The row the database stores for a payload, under the id it assigns. */
  function StoredRow(p: Payload, id: int): EventRow {
    EventRow(Num(id), p.keychainId, p.timestamp, p.fromName, p.toName,
             p.promptKey, p.promptText, p.nextPromptKey, p.nextPromptText)
  }

  /** Reloading after a successful insert gives the optimistic store back,
      except that the event now carries the database id instead of the
      client's: an event whose next prompt is present and non-empty, or
      absent, survives the round trip. */
  lemma ReloadMatchesOptimisticUpdate(rows: seq<EventRow>, e: HistoryEvent, id: int)
    requires Truthy(e.nextPromptKey) || e.nextPromptKey.None?
    requires Truthy(e.nextPromptText) || e.nextPromptText.None?
    ensures Group(rows + [StoredRow(PayloadOf(e), id)])
            == Appended(Group(rows), e.(id := Stringify(Num(id))))
  {
    var all := rows + [StoredRow(PayloadOf(e), id)];
    assert all[..|all| - 1] == rows;
  }

  // ---------------------------------------------------------------------
  // Selecting a keychain from the URL
  // ---------------------------------------------------------------------

  /** The `?id=` check: a truthy value selects its keychain exactly when
      `parseInt` reads an integer from 0 to 99 from it. */
  predicate SelectsKeychain(idFromUrl: Option<string>) {
    && Truthy(idFromUrl)
    && var n := ParseInt(idFromUrl.value);
    n.Some? && 0 <= n.value <= 99
  }

  /** Every id the admin dashboard links to ("0" to "99") is accepted. */
  lemma DashboardIdsSelect(i: int)
    requires 0 <= i <= 99
    ensures SelectsKeychain(Some(NumberToString(i)))
  {
    ParseIntOfNumberToString(i);
  }

  /** Ids that parse to a number out of range are refused. */
  lemma HundredRefused()
    ensures ParseInt("100") == Some(100)
    ensures !SelectsKeychain(Some("100"))
  {
    assert TrimStart("100") == "100";
    assert DigitPrefix("100") == "100" by {
      DigitPrefixOfDigits("100");
    }
    assert DigitsValue("100") == 100 by {
      assert "100"[..2] == "10" && "10"[..1] == "1" && "1"[..0] == "";
    }
  }

  lemma MinusOneRefused()
    ensures ParseInt("-1") == Some(-1)
    ensures !SelectsKeychain(Some("-1"))
  {
    assert TrimStart("-1") == "-1";
    assert Unsigned("-1") == "1" by {
      assert "-1"[1..] == "1";
    }
    assert DigitPrefix("1") == "1" by {
      DigitPrefixOfDigits("1");
    }
    assert DigitsValue("1") == 1 by {
      assert "1"[..0] == "";
    }
  }

  /** Ids in which `parseInt` finds no number are refused. */
  lemma NonNumericRefused()
    ensures !SelectsKeychain(Some("abc")) && !SelectsKeychain(Some(""))
  {
    assert TrimStart("abc") == "abc";
    assert DigitPrefix("abc") == "";
  }

  /** A leading zero is accepted, and the raw string, not the number, then
      names the keychain, so "07" and "7" open different histories. */
  lemma LeadingZeroSelects()
    ensures SelectsKeychain(Some("07"))
    ensures ParseInt("07") == ParseInt(NumberToString(7))
  {
    assert ParseInt("07") == Some(7) by {
      assert TrimStart("07") == "07";
      assert DigitPrefix("07") == "07" by {
        DigitPrefixOfDigits("07");
      }
      assert DigitsValue("07") == 7 by {
        assert "07"[..1] == "0" && "0"[..0] == "";
      }
    }
    ParseIntOfNumberToString(7);
  }

  /** Trailing garbage after the digits is accepted too. */
  lemma TrailingGarbageSelects()
    ensures SelectsKeychain(Some("5abc"))
  {
    assert TrimStart("5abc") == "5abc";
    assert "5abc"[1..] == "abc";
    assert DigitPrefix("abc") == "";
    assert DigitPrefix("5abc") == "5";
    assert DigitsValue("5") == 5 by {
      assert "5"[..0] == "";
    }
  }

  // ---------------------------------------------------------------------
  // The chain of events
  // ---------------------------------------------------------------------

  /** `activeHistory` */
  function ActiveHistory(store: Store, activeId: Option<string>): (h: seq<HistoryEvent>)
    ensures Truthy(activeId) ==> h == HistoryOf(store, activeId.value)
    ensures !Truthy(activeId) ==> h == []
  {
    if Truthy(activeId) then HistoryOf(store, activeId.value) else []
  }

  /** `lastHolderName`: who holds the keychain now. */
  function LastHolderName(history: seq<HistoryEvent>): (name: string)
    ensures history != [] ==> name == history[|history| - 1].toName
    ensures history == [] ==> name == NoHolder
  {
    if |history| > 0 then history[|history| - 1].toName else NoHolder
  }

  /** `Math.floor(Math.random() * PROMPT_POOL.length)` for a random number
      0 <= r < 1. */
  function PickIndex(r: real): (i: int)
    requires 0.0 <= r < 1.0
    ensures 0 <= i < |PromptPool|
  {
    (r * (|PromptPool| as real)).Floor
  }

  /** `currentExplanationData` */
  datatype ExplanationData = ExplanationData(giverName: string, previousPromptText: string,
                                             nextPromptText: string)

  /** The event `handleNewHolderSubmit` makes for a new holder `name` of the
      keychain `activeId` whose history is `history`, with the explanation
      shown next. `r` is `Math.random()`, `uuid` is `crypto.randomUUID()`
      and `now` is `Date.now()`. */
  function NewHolderEvent(history: seq<HistoryEvent>, activeId: string, name: string,
                          r: real, uuid: string, now: int)
    : (out: (HistoryEvent, ExplanationData))
    requires 0.0 <= r < 1.0
    ensures var (e, x) := out;
      && e.toName == name && e.keychainId == Str(activeId) && e.id == uuid && e.timestamp == now
      && e.nextPromptKey.Some? && e.nextPromptText.Some?
      && Prompt(e.nextPromptKey.value, e.nextPromptText.value) == PromptPool[PickIndex(r)]
      && x == ExplanationData(e.fromName, e.promptText, e.nextPromptText.value)
    ensures history == [] ==>
      var e := out.0;
      e.fromName == OriginGiver && e.promptKey == StartKey && e.promptText == FirstMeetingText
    ensures history != [] ==>
      var (e, last) := (out.0, history[|history| - 1]);
      && e.fromName == last.toName
      && e.promptKey == OrElse(last.nextPromptKey, UnknownKey)
      && e.promptText == OrElse(last.nextPromptText, FallbackText)
  {
    var isFirst := |history| == 0;
    var nextPrompt := PromptPool[PickIndex(r)];
    var reasonIReceivedIt :=
      if isFirst then FirstMeetingText else OrElse(history[|history| - 1].nextPromptText, FallbackText);
    var giver := if isFirst then OriginGiver else LastHolderName(history);
    var e := HistoryEvent(
      uuid, Str(activeId), now, giver, name,
      if isFirst then StartKey else OrElse(history[|history| - 1].nextPromptKey, UnknownKey),
      reasonIReceivedIt,
      Some(nextPrompt.key), Some(nextPrompt.text));
    (e, ExplanationData(giver, reasonIReceivedIt, nextPrompt.text))
  }

  /** The next prompt of an event is an entry of the pool. */
  predicate PromptFromPool(e: HistoryEvent) {
    e.nextPromptKey.Some? && e.nextPromptText.Some?
    && Prompt(e.nextPromptKey.value, e.nextPromptText.value) in PromptPool
  }

  /** An event picks up where the previous one left off: it is given by the
      previous receiver, for the reason the previous event announced. */
  predicate Linked(prev: HistoryEvent, e: HistoryEvent) {
    && e.fromName == prev.toName
    && prev.nextPromptKey == Some(e.promptKey)
    && prev.nextPromptText == Some(e.promptText)
  }

  /** A chain as the client builds it: it starts with an origin event, each
      event follows on from the one before, and each announces a prompt of
      the pool. */
  predicate WellLinked(chain: seq<HistoryEvent>) {
    && (chain != [] ==>
          chain[0].fromName == OriginGiver && chain[0].promptKey == StartKey
          && chain[0].promptText == FirstMeetingText)
    && (forall k :: 0 < k < |chain| ==> Linked(chain[k - 1], chain[k]))
    && (forall k :: 0 <= k < |chain| ==> PromptFromPool(chain[k]))
  }

  /** An event that follows on from the end of a well-linked chain, or
      opens an empty one, extends it to a well-linked chain. */
  lemma WellLinkedAppend(chain: seq<HistoryEvent>, e: HistoryEvent)
    requires WellLinked(chain) && PromptFromPool(e)
    requires chain == [] ==>
               e.fromName == OriginGiver && e.promptKey == StartKey && e.promptText == FirstMeetingText
    requires chain != [] ==> Linked(chain[|chain| - 1], e)
    ensures WellLinked(chain + [e])
  {
    var c := chain + [e];
    forall k | 0 < k < |c| ensures Linked(c[k - 1], c[k]) {
      if k < |chain| {
        assert c[k - 1] == chain[k - 1] && c[k] == chain[k];
      }
    }
    forall k | 0 <= k < |c| ensures PromptFromPool(c[k]) {
      if k < |chain| {
        assert c[k] == chain[k];
      }
    }
  }

  /** Appending the event made for a new holder keeps a chain well linked:
      the fallbacks are never used, because every pool key and text is
      non-empty. */
  lemma NewHolderEventKeepsChain(history: seq<HistoryEvent>, activeId: string, name: string,
                                 r: real, uuid: string, now: int)
    requires 0.0 <= r < 1.0
    requires WellLinked(history)
    ensures WellLinked(history + [NewHolderEvent(history, activeId, name, r, uuid, now).0])
  {
    var e := NewHolderEvent(history, activeId, name, r, uuid, now).0;
    assert PromptFromPool(e) by {
      assert PromptPool[PickIndex(r)] in PromptPool;
    }
    if history != [] {
      var last := history[|history| - 1];
      assert PromptFromPool(last);
      var p := Prompt(last.nextPromptKey.value, last.nextPromptText.value);
      assert p.key != "" && p.text != "" by {
        PromptPoolWellFormed();
        var i :| 0 <= i < |PromptPool| && PromptPool[i] == p;
      }
      assert Linked(last, e);
    }
    WellLinkedAppend(history, e);
  }

  /** In a well-linked chain every event after the first was given for a
      reason taken from the pool, with the text the pool gives its key; the
      fallback key and text never appear. */
  lemma WellLinkedReasons(chain: seq<HistoryEvent>, k: int)
    requires WellLinked(chain) && 0 < k < |chain|
    ensures PromptText(chain[k].promptKey) == Some(chain[k].promptText)
    ensures chain[k].promptKey != UnknownKey && chain[k].promptKey != StartKey
  {
    PromptPoolWellFormed();
    var prev := chain[k - 1];
    assert Linked(prev, chain[k]) && PromptFromPool(prev);
    var p := Prompt(chain[k].promptKey, chain[k].promptText);
    PromptTextOfEntry(p);
    var i :| 0 <= i < |PromptPool| && PromptPool[i] == p;
  }

  // ---------------------------------------------------------------------
  // The application state
  // ---------------------------------------------------------------------

  /** The React state of `App` that the flow reads and writes. */
  class JourneyApp {
    var screen: Screen
    var store: Store
    var activeId: Option<string>
    var newHolderName: string
    var explanation: Option<ExplanationData>

    constructor()
      ensures screen == Admin && store == map[] && activeId == None
      ensures newHolderName == "" && explanation == None
    {
      screen := Admin;
      store := map[];
      activeId := None;
      newHolderName := "";
      explanation := None;
    }

    /** The `?id=` check of the initial effect. A selected keychain keeps
        the raw string as its id. */
    method InitFromUrl(idFromUrl: Option<string>)
      modifies this
      ensures SelectsKeychain(idFromUrl) ==> screen == Landing && activeId == idFromUrl
      ensures !SelectsKeychain(idFromUrl) ==> screen == Admin && activeId == old(activeId)
      ensures store == old(store) && newHolderName == old(newHolderName)
      ensures explanation == old(explanation)
    {
      if Truthy(idFromUrl) {
        var numId := ParseInt(idFromUrl.value);
        if numId.Some? && numId.value >= 0 && numId.value <= 99 {
          activeId := idFromUrl;
          screen := Landing;
        } else {
          screen := Admin;
        }
      } else {
        screen := Admin;
      }
    }

    /** `fetchEvents`: the rows of the events table ordered by timestamp, or
        None when the query fails, which leaves the store as it was. */
    method LoadEvents(rows: Option<seq<EventRow>>)
      modifies this
      ensures rows.Some? ==> store == Group(rows.value)
      ensures rows.None? ==> store == old(store)
      ensures screen == old(screen) && activeId == old(activeId)
      ensures newHolderName == old(newHolderName) && explanation == old(explanation)
    {
      if rows.Some? {
        store := ProcessDataToStore(rows.value);
      }
    }

    /** `saveEvent`: the store is updated at once and the payload is sent;
        a failed insert is reported but not rolled back. */
    method SaveEvent(e: HistoryEvent) returns (payload: Payload)
      modifies this
      ensures store == Appended(old(store), e)
      ensures payload == PayloadOf(e)
      ensures screen == old(screen) && activeId == old(activeId)
      ensures newHolderName == old(newHolderName) && explanation == old(explanation)
    {
      var currentList := HistoryOf(store, Stringify(e.keychainId));
      store := store[Stringify(e.keychainId) := currentList + [e]];
      payload := PayloadOf(e);
    }

    /** `handleNewHolderSubmit`: nothing happens without an active keychain;
        otherwise the new event is saved and the explanation screen shown. */
    method HandleNewHolderSubmit(name: string, r: real, uuid: string, now: int)
      returns (payload: Option<Payload>)
      requires 0.0 <= r < 1.0
      modifies this
      ensures !Truthy(old(activeId)) ==>
                && payload == None && store == old(store) && screen == old(screen)
                && newHolderName == old(newHolderName) && explanation == old(explanation)
      ensures Truthy(old(activeId)) ==>
                var (e, x) := NewHolderEvent(ActiveHistory(old(store), old(activeId)),
                                             old(activeId).value, name, r, uuid, now);
                && store == Appended(old(store), e)
                && payload == Some(PayloadOf(e))
                && screen == Explanation && newHolderName == name && explanation == Some(x)
      ensures activeId == old(activeId)
      ensures Truthy(activeId) && WellLinked(ActiveHistory(old(store), activeId)) ==>
                WellLinked(ActiveHistory(store, activeId))
    {
      if !Truthy(activeId) {
        return None;
      }
      var history := ActiveHistory(store, activeId);
      var (e, x) := NewHolderEvent(history, activeId.value, name, r, uuid, now);
      if WellLinked(history) {
        NewHolderEventKeepsChain(history, activeId.value, name, r, uuid, now);
      }
      var sent := SaveEvent(e);
      payload := Some(sent);
      newHolderName := name;
      explanation := Some(x);
      screen := Explanation;
    }
  }
}
