/** `list_users`: every row of the users table becomes one string of
    `column: value` pairs joined by ", ", and the list of those strings is
    sent as a JSON body with status 200. */
module Users {
  import opened Outcomes
  import opened Text
  import opened Response
  import opened Oracles

  /** The `map` step for one column: `format!("{column}: {value}")`, after
      `val.unwrap()`, which panics on NULL. */
  function FormatColumn(c: Column): Result<string>
  {
    match c.value
    case None => Panicked(NullColumn)
    case Some(v) => Ok(c.name + ": " + v)
  }

  /** The row formatter as the source writes it: `map` each column, then
      `reduce` left to right with `format!("{rowa}, {rowb}")`, then
      `unwrap`, which panics when the row has no column. */
  function FormatRow(row: Row): (r: Result<string>)
    ensures row == [] ==> r == Panicked(EmptyRow)
    ensures r.Panicked? ==> r.reason == EmptyRow || r.reason == NullColumn
  {
    if |row| == 0 then Panicked(EmptyRow)
    else
      match FormatColumn(row[0])
      case Panicked(p) => Panicked(p)
      case Ok(first) => ReduceColumns(first, row[1..])
  }

  /** The `reduce` loop: folds the remaining columns into `acc`. */
  function ReduceColumns(acc: string, rest: Row): (r: Result<string>)
    ensures r.Panicked? ==> r.reason == NullColumn
    ensures r.Ok? ==> |r.value| >= |acc|
    decreases |rest|
  {
    if rest == [] then Ok(acc)
    else
      match FormatColumn(rest[0])
      case Panicked(p) => Panicked(p)
      case Ok(field) => ReduceColumns(acc + ", " + field, rest[1..])
  }

  /** A row whose every column has a value. */
  predicate AllPresent(row: Row)
  {
    forall i :: 0 <= i < |row| ==> row[i].value.Some?
  }

  /** The `column: value` pairs of a row with no NULL, in column order. */
  function Fields(row: Row): (fs: seq<string>)
    requires AllPresent(row)
    ensures |fs| == |row|
    ensures forall i :: 0 <= i < |row| ==> fs[i] == row[i].name + ": " + row[i].value.value
  {
    if row == [] then []
    else [row[0].name + ": " + row[0].value.value] + Fields(row[1..])
  }

  /** What the row formatter computes: an empty row panics, a row with a
      NULL panics, and any other row gives its pairs joined by ", ". */
  lemma {:induction false} FormatRowJoins(row: Row)
    ensures FormatRow(row) ==
      if |row| == 0 then Panicked(EmptyRow)
      else if !AllPresent(row) then Panicked(NullColumn)
      else Ok(Join(", ", Fields(row)))
  {
    if |row| > 0 && row[0].value.Some? {
      var first := row[0].name + ": " + row[0].value.value;
      ReduceColumnsJoins(first, row[1..]);
      assert AllPresent(row) <==> AllPresent(row[1..]) by {
        assert forall i :: 1 <= i < |row| ==> row[i] == row[1..][i - 1];
      }
      if AllPresent(row) {
        assert Fields(row) == [first] + Fields(row[1..]);
      }
    }
  }

  /** Folding columns into `acc` joins `acc` and their pairs with ", ", or
      panics on the first NULL. */
  lemma {:induction false} ReduceColumnsJoins(acc: string, rest: Row)
    ensures ReduceColumns(acc, rest) ==
      if AllPresent(rest) then Ok(Join(", ", [acc] + Fields(rest))) else Panicked(NullColumn)
    decreases |rest|
  {
    if rest == [] {
      assert [acc] + Fields(rest) == [acc];
    } else if rest[0].value.Some? {
      var field := rest[0].name + ": " + rest[0].value.value;
      ReduceColumnsJoins(acc + ", " + field, rest[1..]);
      assert AllPresent(rest) <==> AllPresent(rest[1..]) by {
        assert forall i :: 1 <= i < |rest| ==> rest[i] == rest[1..][i - 1];
      }
      if AllPresent(rest) {
        var tail := Fields(rest[1..]);
        assert Fields(rest) == [field] + tail;
        JoinShift(", ", acc, field, tail);
        assert [acc] + ([field] + tail) == [acc, field] + tail;
      }
    }
  }

  /** Folding the first two items together is joining them. */
  lemma {:induction false} JoinShift(sep: string, a: string, b: string, tail: seq<string>)
    ensures Join(sep, [a + sep + b] + tail) == Join(sep, [a, b] + tail)
  {
    assert ([a, b] + tail)[1..] == [b] + tail;
    assert ([a + sep + b] + tail)[1..] == tail;
    if tail != [] {
      assert ([b] + tail)[1..] == tail;
    }
  }

  /** The strings `list_users` collects for the rows `rows`, in row order,
      or the panic of the first row that cannot be formatted. */
  function Listing(rows: seq<Row>): (r: Result<seq<string>>)
    ensures r.Ok? <==> forall i :: 0 <= i < |rows| ==> FormatRow(rows[i]).Ok?
    ensures r.Ok? ==> |r.value| == |rows|
    ensures r.Ok? ==> forall i :: 0 <= i < |rows| ==> FormatRow(rows[i]) == Ok(r.value[i])
    decreases |rows|
  {
    if rows == [] then Ok([])
    else
      var init := rows[..|rows| - 1];
      assert forall i :: 0 <= i < |init| ==> init[i] == rows[i];
      match Listing(init)
      case Panicked(p) => Panicked(p)
      case Ok(users) =>
        match FormatRow(rows[|rows| - 1])
        case Panicked(p) => Panicked(p)
        case Ok(line) => Ok(users + [line])
  }

  /** Once a prefix of the rows panics, so does the whole listing, with the
      same reason. */
  lemma {:induction false} ListingPanicPersists(rows: seq<Row>, j: nat)
    requires j <= |rows| && Listing(rows[..j]).Panicked?
    ensures Listing(rows) == Listing(rows[..j])
    decreases |rows| - j
  {
    if j < |rows| {
      assert rows[..j + 1][..j] == rows[..j];
      ListingPanicPersists(rows, j + 1);
    } else {
      assert rows[..j] == rows;
    }
  }

  /** The response `list_users` sends, or the panic that stops it. */
  function ListUsersResponse(db: Backend): (r: Result<string>)
    ensures r.Ok? <==> forall i :: 0 <= i < |db.users| ==> FormatRow(db.users[i]).Ok?
    ensures r.Ok? ==> |r.value| > |OK| && r.value[..|OK|] == OK
  {
    match Listing(db.users)
    case Panicked(p) => Panicked(p)
    case Ok(users) => Ok(BodyResponse(OK, db.toJson(users)))
  }

  /** `list_users`: pushes the formatted string of each row, in order, and
      answers 200 with the JSON rendering of the list. */
  method ListUsers(db: Backend) returns (r: Result<string>)
    ensures r == ListUsersResponse(db)
  {
    var users: seq<string> := [];
    var i := 0;
    while i < |db.users|
      invariant 0 <= i <= |db.users|
      invariant Listing(db.users[..i]) == Ok(users)
    {
      var row := FormatRow(db.users[i]);
      assert db.users[..i + 1][..i] == db.users[..i];
      if row.Panicked? {
        ListingPanicPersists(db.users, i + 1);
        return Panicked(row.reason);
      }
      users := users + [row.value];
      i := i + 1;
    }
    assert db.users[..i] == db.users;
    r := Ok(BodyResponse(OK, db.toJson(users)));
  }

  /** `list_users` never answers with anything but 200, and the body it
      sends is the JSON of one formatted string per row. */
  lemma {:induction false} ListUsersAnswer(db: Backend)
    requires ListUsersResponse(db).Ok?
    ensures var users := Listing(db.users).value;
      ParseResponse(ListUsersResponse(db).value)
      == Some(Message(OK, Utf8Length(db.toJson(users)), db.toJson(users)))
  {
    var users := Listing(db.users).value;
    ResponseRoundTrip(OK, db.toJson(users));
  }
}
