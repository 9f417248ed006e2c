/**
 The review screen driven by a sequence of user events. The price parser is
 the same for every event, as `parseFloat` is.
 */
module Session {
  import opened ReceiptTypes
  import opened Selection
  import opened ItemEdits
  import opened ReviewState

  /** What can happen on the screen: a receipt arrives, the header date is
      picked or cleared, a checkbox or an input of a row is used, the upload
      button is pressed or its request settles. */
  datatype Event =
    | Received(rec: Receipt)
    | PickDate(newDate: Option<string>)
    | ToggleAllRows
    | ToggleRow(index: int)
    | EditRow(row: int, field: ItemField, value: string)
    | EditRowDate(index: int, value: string)
    | PressUpload(token: string, databaseId: string)
    | UploadSettled

  /** One event. Rows are only drawn for existing lines, so an edit event for
      a row that does not exist cannot arise and is ignored here. */
  function Step(s: Review, e: Event, parsePrice: string -> Option<real>): (r: Review)
    ensures Valid(s) ==> Valid(r)
    ensures s.Loaded? ==> r.Loaded?
    ensures s.Empty? && !e.Received? ==> r == s
  {
    match e
    case Received(rec) => Load(s, rec)
    case PickDate(d) => DateChange(s, d)
    case ToggleAllRows => ToggleSelectAll(s)
    case ToggleRow(i) => ToggleItemSelection(s, i)
    case EditRow(i, field, value) =>
      if s.Loaded? && 0 <= i < |s.record.items| then ItemChange(s, i, field, value, parsePrice) else s
    case EditRowDate(i, value) => ItemDateEdit(s, i, value)
    case PressUpload(token, databaseId) => StartUpload(s, token, databaseId).0
    case UploadSettled => FinishUpload(s)
  }

  /** The events in order. Whatever the user does, the mask keeps one entry
      per line, and a loaded screen stays loaded. */
  function Run(s: Review, events: seq<Event>, parsePrice: string -> Option<real>): (r: Review)
    ensures Valid(s) ==> Valid(r)
    ensures s.Loaded? ==> r.Loaded?
    decreases |events|
  {
    if |events| == 0 then s else Run(Step(s, events[0], parsePrice), events[1..], parsePrice)
  }

  /** Some event delivers a receipt. */
  predicate SomeReceived(events: seq<Event>) {
    exists k :: 0 <= k < |events| && events[k].Received?
  }

  /** The screen leaves the empty state exactly when a receipt arrives, and
      never returns to it. */
  lemma {:induction false} LoadedIffReceived(s: Review, events: seq<Event>, parsePrice: string -> Option<real>)
    ensures s.Loaded? ==> Run(s, events, parsePrice).Loaded?
    ensures s.Empty? ==> (Run(s, events, parsePrice).Loaded? <==> SomeReceived(events))
    decreases |events|
  {
    if |events| > 0 {
      var next := Step(s, events[0], parsePrice);
      LoadedIffReceived(next, events[1..], parsePrice);
      if SomeReceived(events[1..]) {
        var k :| 0 <= k < |events[1..]| && events[1..][k].Received?;
        assert events[k + 1].Received?;
      }
      if SomeReceived(events) && !events[0].Received? {
        var k :| 0 <= k < |events| && events[k].Received?;
        assert events[1..][k - 1].Received?;
      }
      if events[0].Received? {
        assert SomeReceived(events);
      }
    }
  }

  /** Toggling all twice in a row gives back the mask only when it was
      uniform; a mixed selection ends up entirely cleared. */
  lemma ToggleAllTwiceOnScreen(s: Review, parsePrice: string -> Option<real>)
    requires s.Loaded?
    ensures var r := Run(s, [ToggleAllRows, ToggleAllRows], parsePrice);
      && (Uniform(s.mask) ==> r == s)
      && (!Uniform(s.mask) ==> r == s.(mask := seq(|s.mask|, _ => false)))
  {
    ToggleAllTwice(s.mask);
    assert [ToggleAllRows, ToggleAllRows][1..] == [ToggleAllRows];
  }

  /** Picking a header date re-dates every line, so the lines sent on the
      next upload all carry that date. */
  lemma {:induction false} PickedDateReachesUpload(s: Review, d: string, token: string, databaseId: string,
                                                   parsePrice: string -> Option<real>)
    requires s.Loaded?
    ensures var r := DateChange(s, Some(d));
      var req := StartUpload(r, token, databaseId).1;
      req.Some? ==> forall j :: 0 <= j < |req.value.items| ==> req.value.items[j].date == d
  {
    var r := DateChange(s, Some(d));
    var req := StartUpload(r, token, databaseId).1;
    if req.Some? {
      var idx := SelectedIndices(r.mask, |r.record.items|);
      forall j | 0 <= j < |req.value.items| ensures req.value.items[j].date == d {
        assert req.value.items[j] == r.record.items[idx[j]];
      }
    }
  }
}
