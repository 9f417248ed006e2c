/**
 The records the receipt screens pass around: a receipt line, the structured
 receipt the extraction step produces, and the three export column labels.

 Dates are kept as the text the record carries (the extraction result holds
 date strings, the date pickers hand over their value); parsing that text into
 a calendar date is not part of this model.
 */
module ReceiptTypes {

  /** The usual Some/None wrapper, for results that may be absent or invalid. */
  datatype Option<+T> = None | Some(value: T)

  /** One receipt line: its description, its price in euros and its date. */
  datatype Item = Item(item: string, priceEur: real, date: string)

  /** A structured receipt: the receipt date and its lines, in receipt order. */
  datatype Receipt = Receipt(date: string, items: seq<Item>)

  /** The labels of the three columns written on export. */
  datatype HeaderMapping = HeaderMapping(item: string, priceEur: string, date: string)

  /** The labels a freshly mounted review screen starts with. */
  const DefaultMapping := HeaderMapping("Item", "Price (EUR)", "Date")
}
