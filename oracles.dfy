/** What the request handler consults but this model does not look inside:
    the SQLite `users` table as the rows a `SELECT userid, password`
    yields, the Argon2 password check behind `check_password`, and the
    `serde_json` rendering of a list of strings. */
module Oracles {
  import opened Outcomes

  /** One column of a result row: its name and its value, `None` for SQL
      NULL. */
  datatype Column = Column(name: string, value: Option<string>)

  type Row = seq<Column>

  datatype Backend = Backend(
    users: seq<Row>,                          // rows of `SELECT userid, password FROM users`
    checkPassword: (string, string) -> bool,  // `check_password(User { userid, password }, ..)`
    toJson: seq<string> -> string             // `serde_json::to_string(&users)`
  )
}
