/**
 The receipt review screen as one explicit state: either nothing is loaded,
 or a receipt is loaded together with its selection mask, the date shown in
 the header, the "a line date was edited by hand" flag, the export labels and
 the upload-in-progress flag. Every handler of the screen is a transition.
 */
module ReviewState {
  import opened ReceiptTypes
  import opened Selection
  import opened ItemEdits

  datatype Review =
    | Empty
    | Loaded(record: Receipt, mask: seq<bool>, date: Option<string>, itemDateChanged: bool,
             mapping: HeaderMapping, uploading: bool)

  /** The mask has one entry per receipt line. */
  predicate Valid(s: Review) {
    s.Loaded? ==> |s.mask| == |s.record.items|
  }

  /** `r` differs from the loaded state `s` at most in its mask. */
  predicate SameExceptMask(s: Review, r: Review)
    requires s.Loaded? && r.Loaded?
  {
    r.record == s.record && r.date == s.date && r.itemDateChanged == s.itemDateChanged
    && r.mapping == s.mapping && r.uploading == s.uploading
  }

  /** `r` differs from the loaded state `s` at most in its receipt lines. */
  predicate SameExceptItems(s: Review, r: Review)
    requires s.Loaded? && r.Loaded?
  {
    r.record.date == s.record.date && r.mask == s.mask && r.date == s.date
    && r.itemDateChanged == s.itemDateChanged && r.mapping == s.mapping && r.uploading == s.uploading
  }

  /** A new extraction result arrives. On first mount the screen starts with
      the default labels and both flags cleared; afterwards the reload only
      replaces the receipt, re-selects every line and shows the receipt's
      date, keeping the edited-date flag, the labels and the upload flag. */
  function Load(s: Review, rec: Receipt): (r: Review)
    ensures r.Loaded? && Valid(r)
    ensures r.record == rec && r.date == Some(rec.date)
    ensures |r.mask| == |rec.items| && AllSelected(r.mask)
    ensures s.Empty? ==> !r.itemDateChanged && r.mapping == DefaultMapping && !r.uploading
    ensures s.Loaded? ==>
      r.itemDateChanged == s.itemDateChanged && r.mapping == s.mapping && r.uploading == s.uploading
  {
    match s
    case Empty => Loaded(rec, SelectEvery(rec.items), Some(rec.date), false, DefaultMapping, false)
    case Loaded(_, _, _, _, _, _) =>
      s.(record := rec, mask := SelectEvery(rec.items), date := Some(rec.date))
  }

  /** The select-all checkbox. */
  function ToggleSelectAll(s: Review): (r: Review)
    ensures s.Empty? ==> r == s
    ensures s.Loaded? ==> r.Loaded? && SameExceptMask(s, r) && |r.mask| == |s.mask|
    ensures s.Loaded? && AllSelected(s.mask) ==> NoneSelected(r.mask)
    ensures s.Loaded? && !AllSelected(s.mask) ==> AllSelected(r.mask)
  {
    match s
    case Empty => s
    case Loaded(_, _, _, _, _, _) => s.(mask := ToggleAll(s.mask))
  }

  /** The checkbox of row `index`. */
  function ToggleItemSelection(s: Review, index: int): (r: Review)
    ensures s.Empty? ==> r == s
    ensures s.Loaded? ==> r.Loaded? && SameExceptMask(s, r) && |r.mask| == |s.mask|
    ensures s.Loaded? ==> forall k :: 0 <= k < |s.mask| ==>
      r.mask[k] == if k == index then !s.mask[k] else s.mask[k]
  {
    match s
    case Empty => s
    case Loaded(_, _, _, _, _, _) => s.(mask := ToggleItem(s.mask, index))
  }

  /** The description or price input of row `index`. */
  function ItemChange(s: Review, index: nat, field: ItemField, value: string,
                      parsePrice: string -> Option<real>): (r: Review)
    requires s.Loaded? ==> index < |s.record.items|
    ensures s.Empty? ==> r == s
    ensures s.Loaded? ==> r.Loaded? && SameExceptItems(s, r)
    ensures s.Loaded? ==> |r.record.items| == |s.record.items|
    ensures s.Loaded? ==> forall k :: 0 <= k < |s.record.items| && k != index ==>
      r.record.items[k] == s.record.items[k]
    ensures s.Loaded? && field == Name ==> r.record.items[index] == s.record.items[index].(item := value)
    ensures s.Loaded? && field == Price && parsePrice(value).Some? ==>
      r.record.items[index] == s.record.items[index].(priceEur := parsePrice(value).value)
    ensures field == Price && parsePrice(value).None? ==> r == s
  {
    match s
    case Empty => s
    case Loaded(_, _, _, _, _, _) =>
      s.(record := s.record.(items := EditItem(s.record.items, index, field, value, parsePrice)))
  }

  /** The header date picker. A picked date becomes the receipt date and the
      date of every line and clears the edited-date flag; clearing the picker
      only blanks the header. */
  function DateChange(s: Review, newDate: Option<string>): (r: Review)
    ensures s.Empty? ==> r == s
    ensures s.Loaded? && newDate.None? ==>
      r.Loaded? && r.date.None? && r.record == s.record && r.mask == s.mask
      && r.itemDateChanged == s.itemDateChanged && r.mapping == s.mapping && r.uploading == s.uploading
    ensures s.Loaded? && newDate.Some? ==>
      && r.Loaded? && r.date == newDate && r.record.date == newDate.value && !r.itemDateChanged
      && r.mask == s.mask && r.mapping == s.mapping && r.uploading == s.uploading
      && |r.record.items| == |s.record.items|
      && forall k :: 0 <= k < |s.record.items| ==>
           r.record.items[k].date == newDate.value
           && r.record.items[k].item == s.record.items[k].item
           && r.record.items[k].priceEur == s.record.items[k].priceEur
  {
    match s
    case Empty => s
    case Loaded(_, _, _, _, _, _) =>
      match newDate
      case None => s.(date := None)
      case Some(d) =>
        s.(date := newDate,
           record := Receipt(d, SetAllDates(s.record.items, d)),
           itemDateChanged := false)
  }

  /** The date input of row `index`: only that line is re-dated, and the
      header is marked as no longer describing every line. */
  function ItemDateEdit(s: Review, index: int, value: string): (r: Review)
    ensures s.Empty? ==> r == s
    ensures s.Loaded? ==>
      && r.Loaded? && r.itemDateChanged
      && r.record.date == s.record.date && r.mask == s.mask && r.date == s.date
      && r.mapping == s.mapping && r.uploading == s.uploading
      && |r.record.items| == |s.record.items|
      && (forall k :: 0 <= k < |s.record.items| && k != index ==> r.record.items[k] == s.record.items[k])
      && (0 <= index < |s.record.items| ==>
            r.record.items[index].date == value
            && r.record.items[index].item == s.record.items[index].item
            && r.record.items[index].priceEur == s.record.items[index].priceEur)
  {
    match s
    case Empty => s
    case Loaded(_, _, _, _, _, _) =>
      s.(record := s.record.(items := SetItemDate(s.record.items, index, value)),
         itemDateChanged := true)
  }

  /** The upload button is enabled: both credentials are non-empty, no upload
      is running, and at least one entry is selected. With the mask aligned
      to the lines, that is exactly when there is a line to send. */
  function UploadEnabled(s: Review, token: string, databaseId: string): (b: bool)
    ensures Valid(s) ==>
      (b <==> s.Loaded? && token != "" && databaseId != "" && !s.uploading
              && |FilterSelected(s.record.items, s.mask)| > 0)
  {
    if s.Loaded? then
      FilterSelectedNonEmpty(s.record.items, s.mask);
      assert Valid(s) && !NoneSelected(s.mask) ==> AnySelectedBelow(s.mask, |s.record.items|) by {
        if Valid(s) && !NoneSelected(s.mask) {
          var k :| 0 <= k < |s.mask| && s.mask[k];
          assert Selected(s.mask, k);
        }
      }
      !(token == "" || databaseId == "" || s.uploading || NoneSelected(s.mask))
    else false
  }

  /** The body of the upload request. */
  datatype UploadRequest = UploadRequest(items: seq<Item>, token: string, databaseId: string,
                                         mapping: HeaderMapping)

  /** Pressing the upload button. A disabled button does nothing; an enabled
      one raises the upload flag and sends the selected lines, in receipt
      order, with the credentials and the labels. */
  function StartUpload(s: Review, token: string, databaseId: string): (out: (Review, Option<UploadRequest>))
    ensures !UploadEnabled(s, token, databaseId) ==> out.0 == s && out.1.None?
    ensures UploadEnabled(s, token, databaseId) ==>
      && out.0 == s.(uploading := true) && out.1.Some?
      && out.1.value.token == token && out.1.value.databaseId == databaseId
      && out.1.value.mapping == s.mapping
      && var idx := SelectedIndices(s.mask, |s.record.items|);
         |out.1.value.items| == |idx|
         && forall j :: 0 <= j < |idx| ==> out.1.value.items[j] == s.record.items[idx[j]]
  {
    if UploadEnabled(s, token, databaseId) then
      (s.(uploading := true),
       Some(UploadRequest(FilterSelected(s.record.items, s.mask), token, databaseId, s.mapping)))
    else (s, None)
  }

  /** The upload finished, whether it succeeded or failed: only the upload
      flag is lowered, the receipt and the mask are untouched. */
  function FinishUpload(s: Review): (r: Review)
    ensures s.Empty? ==> r == s
    ensures s.Loaded? ==>
      r.Loaded? && !r.uploading && SameExceptMask(s.(uploading := false), r) && r.mask == s.mask
  {
    match s
    case Empty => s
    case Loaded(_, _, _, _, _, _) => s.(uploading := false)
  }
}
