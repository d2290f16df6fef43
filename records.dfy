/** The five-column line-item record shared by the extraction result, the
    pending scan and the ledger. */
module Records {
  import opened Wrappers

  /** A Price cell as the JSON reply delivers it: a number, here in minor
      currency units, or some text the extraction put there instead. */
  datatype Scalar = Number(minor: int) | Text(text: string)

  /** The calendar date of a timestamp (pandas' `.dt.date`). */
  datatype Date = Date(year: int, month: int, day: int)

  /** A parsed timestamp (a pandas `Timestamp`, which resolves to the
      nanosecond): two timestamps are equal only when every field is. */
  datatype DateTime = DateTime(date: Date, hour: int, minute: int, second: int, nanosecond: int)

  /** One line item. `T` is the type of the Timestamp cell: text straight
      out of the JSON reply, a DateTime once parsed. `None` is a missing key
      or a null cell; pandas keeps no difference between the two. */
  datatype Row<T> = Row(
    Timestamp: Option<T>,
    Item: Option<string>,
    Category: Option<string>,
    Price: Option<Scalar>,
    Size: Option<string>)
}
