/** The `users` table shared by the quote endpoint and the payment webhook. */
module Users {
  import opened Common

  /** Users are looked up by their verified e-mail address (the table's unique key). */
  type Email = string

  /** One row of the table. `quote_count` and `quote_count_date` are nullable
      columns; a row inserted by the webhook leaves both unset. */
  datatype UserRow = UserRow(isPremium: bool, quoteCount: Option<int>, quoteCountDate: Option<Day>)

  /** The table: at most one row per e-mail address. */
  type Table = map<Email, UserRow>
}
