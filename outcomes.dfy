/** Values shared by the whole model: an optional value, the reasons the
    request handler panics, and the outcome of a step that may panic. */
module Outcomes {

  datatype Option<T> = None | Some(value: T)

  /** Each way `handle_connection` and the helpers it calls can panic on
      the inputs this model covers. */
  datatype Panic =
    | NoRequestLine      // `http_request[0]` on an empty header list
    | ShortRequestLine   // `first_line_parts[0]`, `[1]` or `[2]` out of bounds
    | MissingPassword    // `parts[1]` in `handle_login` when the body has no ','
    | NullColumn         // `val.unwrap()` on a NULL column in `list_users`
    | EmptyRow           // `row_string.unwrap()` when a row has no column

  /** Either the value a step computes, or the panic that ends the connection
      without a response. */
  datatype Result<T> = Ok(value: T) | Panicked(reason: Panic)
}
