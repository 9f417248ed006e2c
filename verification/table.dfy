/**
 What the receipt table shows for a review state: nothing when no receipt is
 loaded, otherwise the header date, the select-all checkbox, one row per line
 and the footer total of the selected lines.
 */
module TableView {
  import opened ReceiptTypes
  import opened Selection
  import opened ReviewState

  /** One table row: its checkbox and the line it shows. */
  datatype Row = Row(checked: bool, item: Item)

  /** The rendered table. `dateDimmed` is the muted style of the header date
      once a line date has been edited by hand. */
  datatype Table = Table(headerDate: Option<string>, dateDimmed: bool, allChecked: bool,
                         rows: seq<Row>, total: real)

  /** The prices of the ticked rows among the first `n`, added up. */
  function CheckedRowsTotal(rows: seq<Row>, n: nat): real
    requires n <= |rows|
    decreases n
  {
    if n == 0 then 0.0
    else CheckedRowsTotal(rows, n - 1) + (if rows[n - 1].checked then rows[n - 1].item.priceEur else 0.0)
  }

  function RowsOf(items: seq<Item>, mask: seq<bool>): (rows: seq<Row>)
    ensures |rows| == |items|
    ensures forall k :: 0 <= k < |items| ==> rows[k].item == items[k] && (rows[k].checked <==> Selected(mask, k))
  {
    seq(|items|, k requires 0 <= k < |items| => Row(Selected(mask, k), items[k]))
  }

  lemma {:induction false} CheckedRowsTotalMatches(items: seq<Item>, mask: seq<bool>, n: nat)
    requires n <= |items|
    ensures CheckedRowsTotal(RowsOf(items, mask), n) == PriceWhereSelected(items, mask, n)
    decreases n
  {
    if n > 0 {
      CheckedRowsTotalMatches(items, mask, n - 1);
    }
  }

  lemma AllCheckedIffAllSelected(items: seq<Item>, mask: seq<bool>)
    ensures var rows := RowsOf(items, mask);
      |mask| == |items| ==> (AllSelected(mask) <==> forall k :: 0 <= k < |rows| ==> rows[k].checked)
  {
    var rows := RowsOf(items, mask);
    if |mask| == |items| {
      assert forall k :: 0 <= k < |rows| ==> (rows[k].checked <==> mask[k]);
    }
  }

  /** The table for a review state. Nothing is drawn without a receipt. With
      one, each line gets a row whose checkbox shows its mask entry, the
      select-all box is ticked exactly when every row is ticked (so also for a
      receipt without lines), and the footer shows the sum of the prices of
      the ticked rows. */
  function Render(s: Review): (t: Option<Table>)
    ensures s.Empty? <==> t.None?
    ensures s.Loaded? ==>
      && |t.value.rows| == |s.record.items|
      && (forall k :: 0 <= k < |s.record.items| ==>
            t.value.rows[k].item == s.record.items[k] && (t.value.rows[k].checked <==> Selected(s.mask, k)))
      && t.value.headerDate == s.date && t.value.dateDimmed == s.itemDateChanged
      && t.value.total == CheckedRowsTotal(t.value.rows, |t.value.rows|)
    ensures s.Loaded? && Valid(s) ==>
      (t.value.allChecked <==> forall k :: 0 <= k < |t.value.rows| ==> t.value.rows[k].checked)
  {
    match s
    case Empty => None
    case Loaded(_, _, _, _, _, _) =>
      var rows := RowsOf(s.record.items, s.mask);
      CheckedRowsTotalMatches(s.record.items, s.mask, |s.record.items|);
      AllCheckedIffAllSelected(s.record.items, s.mask);
      Some(Table(s.date, s.itemDateChanged, AllSelected(s.mask), rows,
                 SelectedTotal(s.record.items, s.mask)))
  }

  /** Three lines priced 5.95, 12.50 and 3.00 with the middle one deselected
      total 8.95. */
  lemma ExampleTotal()
    ensures var items := [Item("a", 5.95, "d"), Item("b", 12.50, "d"), Item("c", 3.00, "d")];
      SelectedTotal(items, [true, false, true]) == 8.95
  {
    var items := [Item("a", 5.95, "d"), Item("b", 12.50, "d"), Item("c", 3.00, "d")];
    var mask := [true, false, true];
    assert PriceWhereSelected(items, mask, 1) == 5.95;
    assert PriceWhereSelected(items, mask, 2) == 5.95;
    assert PriceWhereSelected(items, mask, 3) == 8.95;
  }
}
