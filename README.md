# basic-auth request handling in Dafny

This project models the request-handling path of the `basic-auth` HTTP server (`src/main.rs`). It covers five steps:

- how one connection reads its header lines up to the blank line;
- how the request line is split into method, path and version;
- the body line read that only a POST performs;
- the rejection of every version other than `HTTP/1.1`, and the route `match`;
- the three things the handlers build: the `empty_response`/`body_response` framing, the `userid,password` parsing of `handle_login`, and the `column: value` row formatting of `list_users`.

What is modelled, and how:

- **The socket** is a `Connection.LineReader`. It is a class holding the lines the client sends and a read position. `ReadLine` reads one line, which is what `read_line` does. The response is returned instead of being written.
- **Panics** become `Outcomes.Result.Panicked`, with the reason as a value. These are indexing `http_request[0]`, a missing request-line token, a missing password field, `unwrap` of a NULL column and `unwrap` of an empty row.
- **The database, Argon2 and `serde_json`** are fields of the `Oracles.Backend` value:
  - the rows of the users table, each column a name with an optional value;
  - the password check, as a function to `bool`;
  - the JSON rendering of a list of strings.
- **Strings** are sequences of Unicode scalar values. `Content-Length` is their UTF-8 byte length (`Text.Utf8Length`). Whitespace for `trim` and `split_whitespace` is the Unicode `White_Space` set (`Text.IsWhitespace`).

Modules:

- `Outcomes`: the result and panic types.
- `Text`: `trim`, `split_whitespace`, `split`, `replace` and UTF-8 length.
- `Decimal`: the `Display` form of a length.
- `Response`: the status lines, the two builders, and a reader for what they build.
- `Oracles`: the backend.
- `Login`: `handle_login`.
- `Users`: `list_users`.
- `Connection`: `handle_connection`.

The code has no `Authorization` header parsing, no `Content-Length`-bounded body read, and no roles or admin gating. None of these is modelled. The body of a POST is exactly one line, read with `read_line`.

## Model

| member | source | states |
|---|---|---|
| Response.EmptyResponse | src/main.rs:130-134 | The empty response is the body response with empty contents. Its `Content-Length` is `0`. |
| Response.BodyResponse | src/main.rs:136-141 | The response starts with the status line and ends with the contents, verbatim. It is longer than both together. |
| Response.ResponseRoundTrip | src/main.rs:136-141 | Reading a built response gives back its status line and its contents. The `Content-Length` read is the UTF-8 byte length of the contents. |
| Response.EmptyResponseReads | src/main.rs:130-134 | An empty response reads back as its status line, length 0 and an empty body. |
| Response.ParseResponseInverse | src/main.rs:136-141 | The converse of the round trip: whatever reads as a response is exactly the `body_response` of its status line and body, unless its length numeral has a leading zero, which `format!` never prints. |
| Response.FramedNumeral | src/main.rs:139 | A status line, length header, numeral, blank line and body is the `body_response` of that status and body when the numeral has no leading zero. |
| Decimal.CanonicalRoundTrip | src/main.rs:139 | Every numeral without a leading zero is what `Display` prints for its value, so each length has exactly one printed form. |
| Response.StatusLines | src/main.rs:23-25 | The three status lines are pairwise distinct and contain no CR. |
| Decimal.DecimalRoundTrip | src/main.rs:139 | The decimal numeral printed for the length reads back as that length. |
| Decimal.NatToDecimal | src/main.rs:139 | The numeral is non-empty and all digits. It has a leading zero only for zero, and zero prints as `0`. |
| Text.Utf8Length | src/main.rs:137 | The byte length is at least the character count and at most four times it. |
| Text.AsciiUtf8Length | src/main.rs:137 | For ASCII text the byte length is the character count. |
| Login.HandleLogin | src/main.rs:73-89 | A body is answered exactly when it contains a `,`. Otherwise it panics on the missing password field. Every answer is the empty 200 response or the empty 401 response. |
| Login.LoginDecision | src/main.rs:75-87 | Once every LF is removed, a body reading `userid,password` (possibly followed by more `,` fields) gets 200 exactly when the check accepts that pair, and 401 otherwise. |
| Login.LoginLine | src/main.rs:73-89 | The body line `userid,password` followed by LF gets 200 exactly when the check accepts the pair, and 401 otherwise. |
| Login.LoginLineKeepsCarriageReturn | src/main.rs:75-79 | With a CR LF line end, the CR is not removed. The password checked is the one sent with a CR appended. |
| Text.RemoveAllCounts | src/main.rs:75 | Removing a character drops every occurrence of it and keeps the count of every other character. |
| Text.RemoveAllKeeps | src/main.rs:75 | Removing LF keeps a `,` exactly when there was one. |
| Text.RemoveAll | src/main.rs:75 | `replace("\n", "")`: no LF is left and the body gets no longer. `RemoveAllCounts` states that every other character keeps its count. |
| Text.JoinOfSplit | src/main.rs:76 | Joining the fields of a split with the separator gives back the body. |
| Text.SplitCount | src/main.rs:76 | A split has one field more than there are separators. |
| Text.Split | src/main.rs:76 | A split has at least one field, and no field contains the separator. There are two or more fields exactly when the separator occurs. |
| Text.SplitFirstTwo | src/main.rs:76-79 | In `a,b` followed by more fields, fields 0 and 1 are `a` and `b`. |
| Text.SplitOfJoin | src/main.rs:76 | Splitting fields joined by a separator they lack gives the fields back. |
| Users.FormatRowJoins | src/main.rs:152-158 | The row formatter panics on an empty row or on a NULL column. Otherwise it gives the row's `column: value` pairs, in column order, joined by `, `. |
| Users.FormatRow | src/main.rs:152-160 | The `map`/`reduce`/`unwrap` row formatter. An empty row panics on the `reduce` result, and the only other panic is a NULL column. `FormatRowJoins` states what it computes. |
| Users.ReduceColumnsJoins | src/main.rs:158 | The left fold over the remaining columns equals joining the accumulator and their pairs with `, `. It panics on the first NULL. |
| Users.Fields | src/main.rs:153-155 | There is one `column: value` pair per column, in column order. |
| Users.Listing | src/main.rs:147-160 | The collected list exists exactly when every row formats. It then has one string per row, each that row's formatted string, in row order. |
| Users.ListingPanicPersists | src/main.rs:150-164 | Once a row panics, the whole listing panics for the same reason. |
| Users.ListUsers | src/main.rs:143-167 | The loop pushes the formatted rows in order and answers with the response `ListUsersResponse` describes. |
| Users.ListUsersResponse | src/main.rs:143-167 | The answer exists exactly when every row formats, and it starts with the 200 status line. `ListUsersAnswer` states how it reads back. |
| Users.ListUsersAnswer | src/main.rs:166 | `list_users` answers 200. Its body is the JSON of the formatted rows, and its `Content-Length` is that body's byte length. |
| Text.Trim | src/main.rs:180 | A trimmed line is no longer than the line, and it starts and ends with a non-whitespace character. |
| Text.TrimKeepsInfix | src/main.rs:180 | Trimming keeps a contiguous part of the line and drops only whitespace around it. |
| Text.TrimLineEnd | src/main.rs:180 | Trimming a line with no whitespace at its ends, followed by CR LF, gives the line without CR LF. |
| Connection.LineReader.ReadLine | src/main.rs:175 | Gives the next line and advances by one. At the end of the stream it gives the empty string and does not advance. |
| Connection.HeaderBlock | src/main.rs:172-181 | Stops at the first line that is exactly CR LF or LF and does not store it. Every earlier line is stored trimmed, in arrival order. |
| Connection.HeaderBlockEndsAtFirstTerminator | src/main.rs:177-179 | The number of stored headers is the position of the first terminator line. |
| Connection.ReadHeaders | src/main.rs:172-181 | The loop stores the header block and reads exactly one line more than it stores. |
| Text.Words | src/main.rs:188-190 | Every piece of `split_whitespace` is a non-empty run of non-whitespace. |
| Text.WordsOfJoin | src/main.rs:188-190 | Splitting tokens joined by single spaces gives the tokens back. |
| Text.WordsOfSpaced | src/main.rs:188-190 | Splitting tokens kept apart by whitespace runs of any length and kind, with optional whitespace before and after, gives the tokens back. |
| Text.WordsLayout | src/main.rs:188-190 | Every string is leading whitespace followed by its words kept apart by whitespace runs. With `WordsOfSpaced`, this determines the words of every string. |
| Connection.ParseRequestLine | src/main.rs:185-194 | The method, path and version are tokens. No header at all panics on `http_request[0]`, and that is the only way to get that panic. Any other failure is a missing token. |
| Connection.ParseRequestLineSpaced | src/main.rs:185-194 | For a first header of tokens kept apart by any whitespace runs, parsing succeeds exactly when there are at least three tokens. It then gives the first three, and otherwise panics on a missing token. |
| Connection.ParseRequestLineTokens | src/main.rs:185-194 | A request line of method, path, version and any further tokens gives that method, path and version. Extra tokens are ignored. |
| Connection.Serve | src/main.rs:169-228 | One connection reads the header block and the terminator, plus at most the one body line. |
| Connection.BodyLineOnlyForPost | src/main.rs:197-200 | One line more is read exactly when the method is `POST` and a line remains. This holds whatever the version. |
| Connection.VersionGate | src/main.rs:202-206 | Any version other than `HTTP/1.1` gets the empty 501 response, whatever the method and path. |
| Connection.EmptyRequestPanics | src/main.rs:177-185 | A connection whose first line is blank (CR LF or a bare LF) panics on `http_request[0]` after reading that one line. |
| Connection.RouteAnswers | src/main.rs:208-223 | Over HTTP/1.1, `GET /` and `GET /sleep` give the empty 200 response, `GET /list` gives `list_users`'s answer, and `POST /login` gives `handle_login`'s answer for the body read. Any request outside the four routes (another method, path or version) gives the empty 501 response. Both empty responses read back with no body. |
| Connection.Route | src/main.rs:208-223 | The route `match`. Only `GET /list` and `POST /login`, the routes that call into the database, can panic. `RouteAnswers` and `RespondWellFormed` state each route's answer. |
| Connection.Respond | src/main.rs:202-223 | The version check, then the route. A panic needs HTTP/1.1 and `/list` or `/login`. `VersionGate` and `RouteAnswers` state the answers. |
| Connection.Dispatch | src/main.rs:208-223 | The route step of the method: it runs the `list_users` loop for `GET /list` and answers every request as `Route` does. |
| Connection.RespondWellFormed | src/main.rs:202-223 | Every answer is well framed, with one of the three status lines. 200 comes only from `GET /`, `/list`, `/sleep` or `POST /login`. 401 comes only from `POST /login`. A non-empty body comes only from `GET /list`. Both 200 and 401 need `HTTP/1.1`. |
| Connection.HandleConnection | src/main.rs:169-228 | The method ends with the outcome `Serve` gives for the unread lines, and advances the reader by exactly the lines `Serve` consumes. |
| Connection.ServeFramedRequest | src/main.rs:169-223 | A request line, header lines, a blank line and (for POST) a body line get the answer for that method, path, version and body. Exactly those lines are read. |
| Connection.LoginExchange | src/main.rs:169-223 | `POST /login HTTP/1.1`, any headers, the blank line and `userid,password` LF get 200 exactly when the check accepts the pair, and 401 otherwise. Three lines plus the headers are read. |

## Left out

- Sockets: the TCP listener, the accept loop, `stream.write_all` and the `BufReader` itself are not modelled (src/main.rs:117-126, 170, 204, 225). The input is a sequence of lines and the response is returned.
- Connection.HandleConnection: it requires a terminator line in the unread input. At the end of the stream, `read_line` returns the empty string, which is not a terminator. The source's header loop would then push empty strings forever, and this non-terminating path is not modelled.
- I/O errors and invalid UTF-8 from `read_line`, which panic on `unwrap`, are not modelled.
- Worker threads: the `ThreadPool` of the `basic_auth` library is not modelled. It concerns concurrency only, and its code is not part of this model.
- Password checking: `check_password` is an oracle from userid and password to `bool`. The model therefore does not cover its SQL query, its Argon2 verification or its own panics. A NULL password column panics at `val.unwrap()` (src/main.rs:62). An unknown userid leaves the hash empty, so `PasswordHash::new("")` fails (src/main.rs:69).
- `upsert_user`: this function, its interpolated SQL and the seeding from environment variables in `main` are not modelled (src/main.rs:28-45, 96-115).
- Users.ListUsers: the rows come from the `Backend` value rather than from an SQLite query. `serde_json::to_string` is the `toJson` oracle of that value, and its `unwrap` cannot fail in the model.
- `/sleep`: the five-second `thread::sleep` is not modelled. The route answers 200 at once.
- Logging: `println!` is not modelled.
