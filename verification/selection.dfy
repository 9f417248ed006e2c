/**
 The selection mask of the review screen: one flag per receipt line saying
 whether the line goes into the next export, with the reads and flips the
 screen performs on it.
 */
module Selection {
  import opened ReceiptTypes

  /** Entry `k` is selected. JavaScript reads an entry past the end of the
      mask as `undefined`, which counts as not selected. */
  predicate Selected(mask: seq<bool>, k: int) {
    0 <= k < |mask| && mask[k]
  }

  /** `mask.every(Boolean)`; true of the empty mask. */
  predicate AllSelected(mask: seq<bool>) {
    forall k :: 0 <= k < |mask| ==> mask[k]
  }

  /** `mask.every(item => !item)`; true of the empty mask. */
  predicate NoneSelected(mask: seq<bool>) {
    forall k :: 0 <= k < |mask| ==> !mask[k]
  }

  /** Every entry has the same value. */
  predicate Uniform(mask: seq<bool>) {
    AllSelected(mask) || NoneSelected(mask)
  }

  /** `items.map(() => true)`: the mask of a freshly loaded receipt. */
  function SelectEvery(items: seq<Item>): (mask: seq<bool>)
    ensures |mask| == |items| && AllSelected(mask)
  {
    seq(|items|, _ => true)
  }

  /** The select-all checkbox: every entry becomes the negation of "every
      entry is selected", so a fully selected mask is cleared and any other
      mask is filled. */
  function ToggleAll(mask: seq<bool>): (r: seq<bool>)
    ensures |r| == |mask|
    ensures AllSelected(mask) ==> NoneSelected(r)
    ensures !AllSelected(mask) ==> AllSelected(r)
  {
    var flag := !AllSelected(mask);
    seq(|mask|, _ => flag)
  }

  /** Toggling all twice restores a uniform mask but clears a mixed one. */
  lemma ToggleAllTwice(mask: seq<bool>)
    ensures Uniform(mask) ==> ToggleAll(ToggleAll(mask)) == mask
    ensures !Uniform(mask) ==> ToggleAll(ToggleAll(mask)) == seq(|mask|, _ => false)
  {
  }

  /** The row checkbox: `mask.map((item, i) => i === index ? !item : item)`. */
  function ToggleItem(mask: seq<bool>, index: int): (r: seq<bool>)
    ensures |r| == |mask|
    ensures forall k :: 0 <= k < |mask| && k != index ==> r[k] == mask[k]
    ensures 0 <= index < |mask| ==> r[index] == !mask[index]
  {
    seq(|mask|, k requires 0 <= k < |mask| => if k == index then !mask[k] else mask[k])
  }

  /** An index outside the mask flips nothing, and flipping the same row twice
      restores the mask. */
  lemma ToggleItemProperties(mask: seq<bool>, index: int)
    ensures !(0 <= index < |mask|) ==> ToggleItem(mask, index) == mask
    ensures ToggleItem(ToggleItem(mask, index), index) == mask
  {
  }

  /** The positions below `n` that the mask selects, in increasing order. */
  function SelectedIndices(mask: seq<bool>, n: nat): (idx: seq<nat>)
    ensures forall j :: 0 <= j < |idx| ==> idx[j] < n && Selected(mask, idx[j])
    ensures forall j, j' :: 0 <= j < j' < |idx| ==> idx[j] < idx[j']
    ensures forall k :: 0 <= k < n && Selected(mask, k) ==> k in idx
    decreases n
  {
    if n == 0 then []
    else SelectedIndices(mask, n - 1) + (if Selected(mask, n - 1) then [n - 1] else [])
  }

  /** `items.filter((_, index) => mask[index])`: the lines whose entry is
      selected, in receipt order and nothing else. */
  function FilterSelected(items: seq<Item>, mask: seq<bool>): (r: seq<Item>)
    ensures var idx := SelectedIndices(mask, |items|);
      |r| == |idx| && forall j :: 0 <= j < |r| ==> r[j] == items[idx[j]]
    decreases |items|
  {
    if |items| == 0 then []
    else
      var n := |items| - 1;
      FilterSelected(items[..n], mask) + (if Selected(mask, n) then [items[n]] else [])
  }

  /** Some position below `n` is selected. */
  predicate AnySelectedBelow(mask: seq<bool>, n: nat) {
    exists k :: 0 <= k < n && Selected(mask, k)
  }

  /** Some line is selected exactly when the filtered list is not empty. */
  lemma FilterSelectedNonEmpty(items: seq<Item>, mask: seq<bool>)
    ensures |FilterSelected(items, mask)| > 0 <==> AnySelectedBelow(mask, |items|)
  {
  }

  /** `reduce((acc, item) => acc + item.price_eur, 0)`: the left-to-right sum
      of the prices. */
  function SumPrices(items: seq<Item>): real
    decreases |items|
  {
    if |items| == 0 then 0.0 else SumPrices(items[..|items| - 1]) + items[|items| - 1].priceEur
  }

  /** The footer total: the prices of the selected lines, added up. */
  function SelectedTotal(items: seq<Item>, mask: seq<bool>): (r: real)
    ensures r == PriceWhereSelected(items, mask, |items|)
  {
    FilteredSumIsPriceWhereSelected(items, mask);
    SumPrices(FilterSelected(items, mask))
  }

  /** The total defined position by position: the price at each selected
      position below `n`, added up. */
  function PriceWhereSelected(items: seq<Item>, mask: seq<bool>, n: nat): real
    requires n <= |items|
    decreases n
  {
    if n == 0 then 0.0
    else PriceWhereSelected(items, mask, n - 1) + (if Selected(mask, n - 1) then items[n - 1].priceEur else 0.0)
  }

  lemma {:induction false} SumPricesAppend(xs: seq<Item>, ys: seq<Item>)
    requires |ys| <= 1
    ensures SumPrices(xs + ys) == SumPrices(xs) + SumPrices(ys)
  {
    if |ys| == 1 {
      var t := xs + ys;
      assert t[..|t| - 1] == xs;
      assert ys[..0] == [];
    } else {
      assert xs + ys == xs;
    }
  }

  /** Adding up the filtered lines gives the sum of the prices exactly at the
      selected positions. */
  lemma {:induction false} FilteredSumIsPriceWhereSelected(items: seq<Item>, mask: seq<bool>)
    ensures SumPrices(FilterSelected(items, mask)) == PriceWhereSelected(items, mask, |items|)
    decreases |items|
  {
    if |items| > 0 {
      var n := |items| - 1;
      FilteredSumIsPriceWhereSelected(items[..n], mask);
      PrefixPriceWhereSelected(items, items[..n], mask, n);
      var tail := if Selected(mask, n) then [items[n]] else [];
      assert FilterSelected(items, mask) == FilterSelected(items[..n], mask) + tail;
      assert PriceWhereSelected(items, mask, |items|)
        == PriceWhereSelected(items, mask, n) + (if Selected(mask, n) then items[n].priceEur else 0.0);
      SumPricesAppend(FilterSelected(items[..n], mask), tail);
      if |tail| == 1 {
        assert tail[..0] == [];
      }
    }
  }

  lemma {:induction false} PrefixPriceWhereSelected(items: seq<Item>, prefix: seq<Item>, mask: seq<bool>, n: nat)
    requires n <= |prefix| <= |items| && prefix == items[..|prefix|]
    ensures PriceWhereSelected(prefix, mask, n) == PriceWhereSelected(items, mask, n)
    decreases n
  {
    if n > 0 {
      PrefixPriceWhereSelected(items, prefix, mask, n - 1);
    }
  }

  /** With nothing selected the total is zero. */
  lemma {:induction false} NothingSelectedTotalZero(items: seq<Item>, mask: seq<bool>)
    requires NoneSelected(mask)
    ensures SelectedTotal(items, mask) == 0.0
  {
    FilterSelectedNonEmpty(items, mask);
  }

  /** With every line selected the total is the sum of all prices. */
  lemma {:induction false} EverythingSelectedTotal(items: seq<Item>, mask: seq<bool>)
    requires |mask| == |items| && AllSelected(mask)
    ensures SelectedTotal(items, mask) == SumPrices(items)
    decreases |items|
  {
    if |items| > 0 {
      var n := |items| - 1;
      EverythingSelectedTotal(items[..n], mask[..n]);
      SameSelectionSameFilter(items[..n], mask[..n], mask);
      assert Selected(mask, n);
      SumPricesAppend(FilterSelected(items[..n], mask), [items[n]]);
      assert [items[n]][..0] == [];
    }
  }

  /** The filter only looks at the mask entries of existing lines. */
  lemma {:induction false} SameSelectionSameFilter(items: seq<Item>, m1: seq<bool>, m2: seq<bool>)
    requires forall k :: 0 <= k < |items| ==> (Selected(m1, k) <==> Selected(m2, k))
    ensures FilterSelected(items, m1) == FilterSelected(items, m2)
    decreases |items|
  {
    if |items| > 0 {
      var n := |items| - 1;
      SameSelectionSameFilter(items[..n], m1, m2);
    }
  }
}
