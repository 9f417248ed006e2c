/**
 The edits the review screen makes to the list of receipt lines: a field of
 one line, the date of every line, and the date of one line.
 */
module ItemEdits {
  import opened ReceiptTypes

  /** The two text inputs of a row that go through the item-change handler. */
  datatype ItemField = Name | Price

  /** The item-change handler on the list of lines. A new description is
      stored verbatim. A new price is read with `parsePrice`, which stands for
      `parseFloat` and answers `None` where `parseFloat` answers NaN; an
      unreadable price is dropped without a trace. */
  function EditItem(items: seq<Item>, index: nat, field: ItemField, value: string,
                    parsePrice: string -> Option<real>): (r: seq<Item>)
    requires index < |items|
    ensures |r| == |items|
    ensures forall k :: 0 <= k < |items| && k != index ==> r[k] == items[k]
    ensures field == Name ==>
      r[index].item == value && r[index].priceEur == items[index].priceEur && r[index].date == items[index].date
    ensures field == Price && parsePrice(value).None? ==> r == items
    ensures field == Price && parsePrice(value).Some? ==>
      r[index].item == items[index].item && r[index].priceEur == parsePrice(value).value
      && r[index].date == items[index].date
  {
    match field
    case Name => items[index := items[index].(item := value)]
    case Price =>
      match parsePrice(value)
      case None => items
      case Some(p) => items[index := items[index].(priceEur := p)]
  }

  /** Repeating an edit changes nothing more. */
  lemma EditItemIdempotent(items: seq<Item>, index: nat, field: ItemField, value: string,
                           parsePrice: string -> Option<real>)
    requires index < |items|
    ensures var once := EditItem(items, index, field, value, parsePrice);
      EditItem(once, index, field, value, parsePrice) == once
  {
  }

  /** Edits of two different rows do not interfere: their order is irrelevant. */
  lemma EditItemsCommute(items: seq<Item>, i: nat, fi: ItemField, vi: string,
                         j: nat, fj: ItemField, vj: string, parsePrice: string -> Option<real>)
    requires i < |items| && j < |items| && i != j
    ensures EditItem(EditItem(items, i, fi, vi, parsePrice), j, fj, vj, parsePrice)
         == EditItem(EditItem(items, j, fj, vj, parsePrice), i, fi, vi, parsePrice)
  {
  }

  /** Every line takes the date `d`; descriptions and prices stay as they are. */
  function SetAllDates(items: seq<Item>, d: string): (r: seq<Item>)
    ensures |r| == |items|
    ensures forall k :: 0 <= k < |items| ==>
      r[k].item == items[k].item && r[k].priceEur == items[k].priceEur && r[k].date == d
  {
    seq(|items|, k requires 0 <= k < |items| => items[k].(date := d))
  }

  /** Re-dating every line twice keeps only the second date. */
  lemma SetAllDatesLastWins(items: seq<Item>, d1: string, d2: string)
    ensures SetAllDates(SetAllDates(items, d1), d2) == SetAllDates(items, d2)
  {
  }

  /** The date input of one row: line `index` takes the date `d`; an index
      outside the list changes nothing. */
  function SetItemDate(items: seq<Item>, index: int, d: string): (r: seq<Item>)
    ensures |r| == |items|
    ensures forall k :: 0 <= k < |items| && k != index ==> r[k] == items[k]
    ensures 0 <= index < |items| ==>
      r[index].item == items[index].item && r[index].priceEur == items[index].priceEur && r[index].date == d
  {
    seq(|items|, k requires 0 <= k < |items| => if k == index then items[k].(date := d) else items[k])
  }

  /** Re-dating every line overrides any earlier per-line date. */
  lemma SetAllDatesAfterSetItemDate(items: seq<Item>, index: int, d: string, e: string)
    ensures SetAllDates(SetItemDate(items, index, d), e) == SetAllDates(items, e)
  {
  }
}
